/** Creating, removing and renaming files and directories (src/linkFuseAndFS.cpp:12-67, 125-300, 858-953). */
module NamespaceOps {
  import opened Geometry
  import opened Words
  import opened LayerZero
  import opened DataBlocks
  import opened Inodes
  import opened InodeTable
  import opened BlockMaps
  import opened DirectoryBlocks
  import opened Directories
  import opened DirectoryOps
  import opened Ownership
  import opened Storage
  import opened Paths
  import opened Resolution
  import NS = Namespaces

  const EDQUOT := 122
  const ENOTEMPTY := 39

  /** The inodes in use. */
  ghost function Used(slots: seq<Record>): set<int>
    requires |slots| >= INODE_BLOCK_COUNT
  {
    set n | n in FreeList.Range(0, INODE_BLOCK_COUNT) && slots[n].isAllocated
  }

  ghost predicate OneLinkEach(slots: seq<Record>) {
    forall n :: InodeNumValid(n) && n < |slots| && slots[n].isAllocated ==> slots[n].linkCount == 1
  }

  /** The tree of names as it is on disk. */
  ghost function NamesOf(fs: FileSystem): Tree
    requires |fs.dirs| == INODE_BLOCK_COUNT <= |fs.table.slots|
    reads fs, fs.table
  {
    TreeOf(fs.table.slots, fs.dirs)
  }

  /** Everything is in its place, and the names form a tree in which each inode has its one link. */
  ghost predicate Healthy(fs: FileSystem)
    reads fs, fs.disk, fs.disk.mem, fs.table, fs.table.rows
  {
    && Whole(fs) && Tidy(fs.At(fs.table.slots)) && OneLinkEach(fs.table.slots)
    && NS.TreeShape(NamesOf(fs), Used(fs.table.slots), fs.root) && Proper(NamesOf(fs))
  }

  /** No entry leads to the number that stands for failure. */
  ghost predicate Proper(tree: Tree) {
    forall n, a :: n in tree && a in tree[n] ==> tree[n][a] != -1
  }

  // ----- one inode changed -----

  lemma ListedReplaced(v: Volume, dirs: seq<Directory>, n: int, img': Image, r': Record, m': BlockMap, dir': Directory)
    requires InodeNumValid(n) && Listed(v.store.img, v.slots, v.maps, dirs) && OtherDataSame(v, n, img')
    requires Lists(img', r', m', dir')
    ensures Listed(img', v.slots[n := r'], v.maps[n := m'], dirs[n := dir'])
  {
    hide Lists, DataSame;
    forall k | InodeNumValid(k) && k != n
      ensures Lists(img', v.slots[k], v.maps[k], dirs[k])
    {
      assert DataSame(v.store.img, img', v.maps[k]);
      ListsSame(v.store.img, img', v.slots[k], v.maps[k], dirs[k]);
    }
  }

  lemma TreeReplaced(slots: seq<Record>, dirs: seq<Directory>, n: int, r': Record, dir': Directory)
    requires InodeNumValid(n) && |dirs| == INODE_BLOCK_COUNT <= |slots|
    ensures TreeOf(slots[n := r'], dirs[n := dir'])
      == if r'.isAllocated && r'.isDir then TreeOf(slots, dirs)[n := Directories.Names(Listing(dir'))]
         else TreeOf(slots, dirs) - {n}
    ensures n in TreeOf(slots, dirs) <==> slots[n].isAllocated && slots[n].isDir
    ensures n in TreeOf(slots, dirs) ==> TreeOf(slots, dirs)[n] == Directories.Names(Listing(dirs[n]))
  {
    hide Directories.Names, Listing;
  }

  lemma UsedReplaced(slots: seq<Record>, n: int, r': Record)
    requires InodeNumValid(n) && |slots| >= INODE_BLOCK_COUNT
    ensures Used(slots[n := r']) == if r'.isAllocated then Used(slots) + {n} else Used(slots) - {n}
    ensures n in Used(slots) <==> slots[n].isAllocated
  {
  }

  lemma InTree(slots: seq<Record>, dirs: seq<Directory>, n: int)
    requires |dirs| == INODE_BLOCK_COUNT <= |slots|
    ensures n in TreeOf(slots, dirs) <==> InodeNumValid(n) && slots[n].isAllocated && slots[n].isDir
    ensures n in TreeOf(slots, dirs) ==> TreeOf(slots, dirs)[n] == Directories.Names(Listing(dirs[n]))
  {
    hide Directories.Names, Listing;
  }

  // ----- an entry in a directory whose inode is then written -----

  /** Adds an entry to a loaded directory and writes its inode back. */
  method EnterName(fs: FileSystem, p: int, parent: Inode, child: int, name: seq<byte>) returns (ok: bool)
    requires Whole(fs) && InodeNumValid(p) && parent.Rec() == fs.table.slots[p] && parent.isAllocated
    requires 0 !in name && IsInt64(child) && Step(NamesOf(fs), p, name) == -1
    requires Proper(NamesOf(fs))
    modifies fs`maps, fs`leaked, fs`dirs, fs.disk, fs.disk.mem, fs.table, fs.table.rows, parent
    ensures Whole(fs)
    ensures |old(fs.maps)| == |old(fs.dirs)| == INODE_BLOCK_COUNT
    ensures ok <==>
      old(parent.isDir) && NameOk(name) && RoomForEntry(old(fs.disk.live), old(fs.maps)[p], old(fs.dirs)[p], name)
    ensures ok ==> Spare(fs.disk.live) == Spare(old(fs.disk.live)) - EntryTakes(old(fs.maps)[p], old(fs.dirs)[p], name)
    ensures !ok ==> fs.table.slots == old(fs.table.slots) && fs.dirs == old(fs.dirs) && fs.maps == old(fs.maps)
    ensures !ok && old(parent.isDir) && NameOk(name) ==>
      Wasted(old(fs.At(fs.table.slots)), |fs.maps[p].Data()|, fs.At(fs.table.slots))
    ensures !ok && !(old(parent.isDir) && NameOk(name) && Spare(old(fs.disk.live)) > 0) ==>
      fs.At(fs.table.slots) == old(fs.At(fs.table.slots))
    ensures ok ==>
      && p in old(NamesOf(fs)) && NamesOf(fs) == NS.AddedName(old(NamesOf(fs)), p, name, child)
      && fs.table.slots == old(fs.table.slots)[p := parent.Rec()]
      && parent.isAllocated && parent.isDir && CountedOne(old(parent.Rec()), parent.Rec())
      && fs.leaked == old(fs.leaked)
      && fs.maps == old(fs.maps)[p := fs.maps[p]] && fs.dirs == old(fs.dirs)[p := fs.dirs[p]]
      && fs.dirs[p] == WithEntry(old(fs.dirs)[p], DirectoryBlocks.Entry(child, name))
    ensures ok && old(Tidy(fs.At(fs.table.slots))) ==> Tidy(fs.At(fs.table.slots))
    ensures Kept(old(fs.At(fs.table.slots)), if ok then {p} else {}, fs.At(fs.table.slots))
    ensures ok ==> Leads(old(fs.At(fs.table.slots)), fs.At(fs.table.slots))
  {
    hide Wasted, Leads, Sound, Tidy, Listed, Lists, TreeOf, OtherDataSame, AllDataSame, EntryPlaced, EntryAdded,
         RoomForEntry, EntryTakes, Spare, Listing, Directories.Names, Distinct, Kept, fs.disk.Valid, fs.table.Valid;
    ghost var slots, dirs, v := fs.table.slots, fs.dirs, fs.At(fs.table.slots);
    SlotMap(v, p);
    Absent(v, dirs, p, name);
    ok := AddDirectoryEntry(fs, p, parent, child, name, slots);
    if !ok {
      StillListed(v, dirs, fs.disk.img);
      KeptAll(v, fs.At(slots));
      return;
    }
    ghost var r := parent.Rec();
    EntryEntered(v, dirs, p, Entry(child, name), fs.disk.img, r, fs.maps[p], fs.dirs[p]);
    KeptOthers(v, p, fs.At(slots[p := r]));
    ok := Save(fs, p, parent);
  }

  lemma Absent(v: Volume, dirs: seq<Directory>, p: int, name: seq<byte>)
    requires Sound(v) && Listed(v.store.img, v.slots, v.maps, dirs) && InodeNumValid(p) && v.slots[p].isAllocated
    requires Step(TreeOf(v.slots, dirs), p, name) == -1
    requires Proper(TreeOf(v.slots, dirs))
    ensures |dirs| == |v.maps| == INODE_BLOCK_COUNT && p < |v.slots|
    ensures Lists(v.store.img, v.slots[p], v.maps[p], dirs[p]) && name !in Directories.Names(Listing(dirs[p]))
  {
    hide Listing, Directories.Names, Shown;
    InodeAt(v, v.store.img, dirs, p);
    InTree(v.slots, dirs, p);
    if !v.slots[p].isDir {
      NoNames(dirs[p]);
    }
  }

  lemma NoNames(dir: Directory)
    requires dir == []
    ensures Directories.Names(Listing(dir)) == map[]
  {
  }

  lemma StillListed(v: Volume, dirs: seq<Directory>, img': Image)
    requires Listed(v.store.img, v.slots, v.maps, dirs) && AllDataSame(v, img')
    ensures Listed(img', v.slots, v.maps, dirs)
  {
    hide Lists, DataSame;
    forall k | InodeNumValid(k)
      ensures Lists(img', v.slots[k], v.maps[k], dirs[k])
    {
      assert DataSame(v.store.img, img', v.maps[k]);
      ListsSame(v.store.img, img', v.slots[k], v.maps[k], dirs[k]);
    }
  }

  lemma EntryEntered(v: Volume, dirs: seq<Directory>, p: int, e: DirectoryBlocks.Entry, img': Image, r': Record,
                     m': BlockMap, dir': Directory)
    requires InodeNumValid(p) && Listed(v.store.img, v.slots, v.maps, dirs) && OtherDataSame(v, p, img')
    requires v.slots[p].isAllocated && v.slots[p].isDir && Lists(img', r', m', dir')
    requires EntryAdded(v.slots[p], dirs[p], e, r', dir')
    ensures Listed(img', v.slots[p := r'], v.maps[p := m'], dirs[p := dir'])
    ensures p in TreeOf(v.slots, dirs)
    ensures TreeOf(v.slots[p := r'], dirs[p := dir']) == NS.AddedName(TreeOf(v.slots, dirs), p, e.name, e.inum)
    ensures r'.isAllocated && r'.isDir && CountedOne(v.slots[p], r')
  {
    hide OtherDataSame, Lists, TreeOf, Listing, Directories.Names;
    ListedReplaced(v, dirs, p, img', r', m', dir');
    TreeReplaced(v.slots, dirs, p, r', dir');
  }

  // ----- creating -----

  /** What a slot is right after createInode takes it. */
  function Claimed(r: Record): Record {
    r.(linkCount := 0, isAllocated := true)
  }

  lemma ClaimedListed(v: Volume, dirs: seq<Directory>, c: int)
    requires Sound(v) && Listed(v.store.img, v.slots, v.maps, dirs) && InodeNumValid(c) && !v.slots[c].isAllocated
    ensures c < |v.slots| && |dirs| == INODE_BLOCK_COUNT
    ensures v.maps[c] == EMPTY_MAP && dirs[c] == [] && v.slots[c] == Erased(v.slots[c])
    ensures Listed(v.store.img, v.slots[c := Claimed(v.slots[c])], v.maps, dirs)
    ensures var r := Claimed(v.slots[c]);
      TreeOf(v.slots[c := r], dirs) == if r.isDir then TreeOf(v.slots, dirs)[c := map[]] else TreeOf(v.slots, dirs)
    ensures c !in TreeOf(v.slots, dirs)
  {
    hide Maps, TreeOf;
    var r := Claimed(v.slots[c]);
    NothingMoved(v);
    AllImpliesOther(v, c, v.store.img);
    NoNames(dirs[c]);
    hide Directories.Names, Listing;
    EmptyLists(v.store.img, r);
    ListedReplaced(v, dirs, c, v.store.img, r, v.maps[c], dirs[c]);
    TreeReplaced(v.slots, dirs, c, r, dirs[c]);
    assert v.maps[c := v.maps[c]] == v.maps && dirs[c := dirs[c]] == dirs;
  }

  lemma EmptyLists(img: Image, r: Record)
    requires r.fileSize == 0 && r.blocks == 0 && r.filesCount == 0
    ensures Lists(img, r, EMPTY_MAP, [])
  {
  }

  lemma ClaimedClean(v: Volume, c: int)
    requires Sound(v) && InodeNumValid(c) && v.maps[c] == EMPTY_MAP && SameAddresses(BlankRecord(), v.slots[c])
    ensures CleanAt(v, c)
  {
    EmptyMaps(v.store.img, BlankRecord());
    FieldsMap(v.store.img, BlankRecord(), v.slots[c], EMPTY_MAP);
  }

  /** Gives back a number that was just taken: the table is as it was. */
  method UndoCreate(fs: FileSystem, c: int, ghost slots: seq<Record>)
    requires Whole(fs) && InodeNumValid(c) && |slots| == |fs.table.slots|
    requires slots[c] == Erased(slots[c]) && fs.table.slots == slots[c := Claimed(slots[c])]
    requires fs.maps[c] == EMPTY_MAP && fs.dirs[c] == []
    modifies fs`maps, fs.disk, fs.disk.mem, fs.table, fs.table.rows
    ensures Whole(fs) && fs.table.slots == slots && fs.maps == old(fs.maps) && fs.disk.live == old(fs.disk.live)
    ensures Kept(old(fs.At(slots)), {}, fs.At(slots))
    ensures old(Tidy(fs.At(fs.table.slots))) ==> Tidy(fs.At(slots))
  {
    hide Sound, Tidy, Listed, Lists, CleanAt, OtherDataSame, Kept, fs.disk.Valid, fs.table.Valid;
    ghost var v := fs.At(fs.table.slots);
    SlotMap(v, c);
    ClaimedClean(v, c);
    ListedSizes(v.store.img, v.slots, v.maps, fs.dirs);
    var _ := DeleteInode(fs, c);
    EmptyLists(fs.disk.img, slots[c]);
    ListedReplaced(v, fs.dirs, c, fs.disk.img, slots[c], EMPTY_MAP, []);
    assert fs.table.slots == slots && v.maps[c := EMPTY_MAP] == v.maps && fs.dirs[c := []] == fs.dirs;
    KeptWithout(v, c, slots, fs.disk.Now());
    NothingFreed(v.store.live, fs.disk.live);
  }

  lemma NothingFreed(live: set<int>, live': set<int>)
    requires multiset(live') + Owned(EMPTY_MAP) == multiset(live)
    ensures live' == live
  {
    assert Owned(EMPTY_MAP) == multiset{};
    forall b
      ensures b in live' <==> b in live
    {
      assert multiset(live')[b] == multiset(live)[b];
    }
  }

  lemma KeptWithout(v: Volume, c: int, slots: seq<Record>, s': Store)
    requires InodeNumValid(c) && |v.maps| == INODE_BLOCK_COUNT <= |slots| && v.maps[c] == EMPTY_MAP
    requires OtherDataSame(v, c, s'.img)
    ensures Kept(v.(slots := slots), {}, Volume(s', slots, v.maps, v.leaked))
  {
    assert DataSame(v.store.img, s'.img, EMPTY_MAP);
    hide DataSame;
  }

  /** The record of a new file or directory. */
  function NewRecord(r: Record, isDir: bool, canWrite: bool): Record {
    r.(linkCount := 1, isDir := isDir, canWrite := canWrite, blocks := 0, fileSize := 0, filesCount := 0)
  }

  /** Fills in the inode that was taken for a new file, and writes it. */
  method InitInode(fs: FileSystem, c: int, isDir: bool, canWrite: bool) returns (node: Inode?)
    requires Whole(fs) && InodeNumValid(c) && fs.table.slots[c].isAllocated
    requires SameAddresses(BlankRecord(), fs.table.slots[c]) && fs.maps[c] == EMPTY_MAP && fs.dirs[c] == []
    modifies fs.table, fs.table.rows
    ensures Whole(fs) && node != null && fresh(node)
    ensures fs.table.slots == old(fs.table.slots)[c := NewRecord(old(fs.table.slots[c]), isDir, canWrite)]
    ensures node.Rec() == fs.table.slots[c]
    ensures NamesOf(fs) == if isDir then old(NamesOf(fs))[c := map[]] else old(NamesOf(fs)) - {c}
    ensures |fs.maps| == INODE_BLOCK_COUNT && |fs.table.slots| == INODE_BLOCK_COUNT * INODES_PER_BLOCK
    ensures Moved(old(fs.At(fs.table.slots)), MoveEdit(c, fs.table.slots[c]), fs.At(fs.table.slots))
    ensures Kept(old(fs.At(fs.table.slots)), {c}, fs.At(fs.table.slots))
    ensures old(Tidy(fs.At(fs.table.slots))) ==> Tidy(fs.At(fs.table.slots))
    ensures Leads(old(fs.At(fs.table.slots)), fs.At(fs.table.slots))
  {
    hide Leads, Sound, Tidy, Listed, Lists, TreeOf, OtherDataSame, Kept, Moved, fs.disk.Valid;
    ghost var v := fs.At(fs.table.slots);
    SlotMap(v, c);
    ListedSizes(v.store.img, v.slots, v.maps, fs.dirs);
    node := fs.table.LoadINode(c);
    if node == null {
      return;
    }
    node.linkCount := 1;
    node.isDir, node.canWrite := isDir, canWrite;
    node.blocks, node.fileSize, node.filesCount := 0, 0, 0;
    var _ := SaveEdited(fs, c, node);
    NewListed(v, fs.dirs, c, node.Rec());
    SlotKept(v, c, node.Rec());
  }

  /** Writing another record to one slot keeps the other inodes. */
  lemma SlotKept(v: Volume, n: int, r: Record)
    requires InodeNumValid(n) && |v.maps| == INODE_BLOCK_COUNT <= |v.slots|
    ensures Kept(v, {n}, v.(slots := v.slots[n := r]))
  {
    NothingMoved(v);
    hide DataSame;
  }

  lemma NewListed(v: Volume, dirs: seq<Directory>, c: int, r': Record)
    requires Sound(v) && Listed(v.store.img, v.slots, v.maps, dirs) && InodeNumValid(c)
    requires SameAddresses(v.slots[c], r') && r'.isAllocated && r'.fileSize == 0 && r'.blocks == 0 && r'.filesCount == 0
    requires v.maps[c] == EMPTY_MAP && dirs[c] == []
    ensures Sound(v.(slots := v.slots[c := r'])) && (Tidy(v) ==> Tidy(v.(slots := v.slots[c := r'])))
    ensures Listed(v.store.img, v.slots[c := r'], v.maps, dirs)
    ensures TreeOf(v.slots[c := r'], dirs)
      == if r'.isDir then TreeOf(v.slots, dirs)[c := map[]] else TreeOf(v.slots, dirs) - {c}
  {
    hide Sound, Tidy, Listed, Lists, TreeOf, OtherDataSame, AllDataSame;
    ListedSizes(v.store.img, v.slots, v.maps, dirs);
    SlotMap(v, c);
    EditedSound(v, c, r');
    NothingMoved(v);
    AllImpliesOther(v, c, v.store.img);
    NoNames(dirs[c]);
    EmptyLists(v.store.img, r');
    hide Directories.Names, Listing;
    ListedReplaced(v, dirs, c, v.store.img, r', v.maps[c], dirs[c]);
    TreeReplaced(v.slots, dirs, c, r', dirs[c]);
    assert v.maps[c := v.maps[c]] == v.maps && dirs[c := dirs[c]] == dirs;
  }

  /** The tree with a new, empty directory or file n. */
  function WithNew(tree: Tree, p: int, name: seq<byte>, n: int, isDir: bool): Tree
    requires p in tree
  {
    if isDir then NS.AddedName(tree, p, name, n)[n := map[]] else NS.AddedName(tree, p, name, n)
  }

  /** Inode n is new, the lowest number that was free, and nothing but it and its parent's entries changed. */
  ghost predicate NewFile(slots: seq<Record>, tree: Tree, p: int, name: seq<byte>, n: int, isDir: bool, canWrite: bool,
                          slots': seq<Record>, tree': Tree)
    requires |slots| == |slots'| == INODE_BLOCK_COUNT * INODES_PER_BLOCK
  {
    && p in tree && InodeNumValid(p) && slots[p].canWrite
    && InodeNumValid(n) && !slots[n].isAllocated && (forall k :: 0 <= k < n ==> slots[k].isAllocated)
    && tree' == WithNew(tree, p, name, n, isDir)
    && slots' == slots[p := slots'[p]][n := NewRecord(Claimed(slots[n]), isDir, canWrite)]
    && slots'[p].isAllocated && slots'[p].isDir && CountedOne(slots[p], slots'[p])
  }

  lemma IsNewFile(slots: seq<Record>, tree: Tree, p: int, name: seq<byte>, n: int, isDir: bool, canWrite: bool,
                  p': Record, slots': seq<Record>, tree': Tree)
    requires |slots| == INODE_BLOCK_COUNT * INODES_PER_BLOCK && p in tree && p != n
    requires InodeNumValid(p) && slots[p].canWrite && InodeNumValid(n) && !slots[n].isAllocated
    requires forall k :: 0 <= k < n ==> slots[k].isAllocated
    requires tree' == WithNew(tree, p, name, n, isDir) && CountedOne(slots[p], p') && p'.isAllocated && p'.isDir
    requires slots' == slots[n := Claimed(slots[n])][p := p'][n := NewRecord(Claimed(slots[n]), isDir, canWrite)]
    ensures NewFile(slots, tree, p, name, n, isDir, canWrite, slots', tree')
  {
    hide WithNew, CountedOne, NewRecord, Claimed;
  }

  lemma NewFileTree(tree: Tree, p: int, name: seq<byte>, c: int, wasDir: bool, isDir: bool, tree1: Tree, tree2: Tree,
                    tree3: Tree)
    requires c !in tree && p in tree && p != c
    requires tree1 == if wasDir then tree[c := map[]] else tree
    requires p in tree1 && tree2 == NS.AddedName(tree1, p, name, c)
    requires tree3 == if isDir then tree2[c := map[]] else tree2 - {c}
    ensures tree3 == WithNew(tree, p, name, c, isDir)
  {
  }

  lemma ProperMore(tree: Tree, c: int, wasDir: bool, tree1: Tree, p: int, name: seq<byte>)
    requires Proper(tree) && tree1 == if wasDir then tree[c := map[]] else tree
    requires p != c && Step(tree, p, name) == -1
    ensures Proper(tree1) && Step(tree1, p, name) == -1
  {
  }

  lemma TableSize(fs: FileSystem)
    requires fs.Stored()
    ensures |fs.table.slots| == INODE_BLOCK_COUNT * INODES_PER_BLOCK
  {
  }

  lemma KeptUndone(v: Volume, v1: Volume, v2: Volume, v3: Volume, slots: seq<Record>)
    requires v1 == v.(slots := v1.slots) && slots == v.slots && |v.maps| == INODE_BLOCK_COUNT <= |slots|
    requires Kept(v1, {}, v2) && Kept(v2.(slots := slots), {}, v3) && v2.maps == v.maps
    ensures Kept(v, {}, v3)
  {
    forall k | InodeNumValid(k)
      ensures v3.slots[k] == v.slots[k] && v3.maps[k] == v.maps[k] && DataSame(v.store.img, v3.store.img, v.maps[k])
    {
      assert DataSame(v1.store.img, v2.store.img, v1.maps[k]) && DataSame(v2.store.img, v3.store.img, v2.maps[k]);
    }
  }

  /** Some inode number is free. */
  ghost predicate HasFree(slots: seq<Record>) {
    exists k :: InodeNumValid(k) && k < |slots| && !slots[k].isAllocated
  }

  /** Takes an inode number and makes the entry for it in its loaded parent directory, or neither. */
  method TakeNumber(fs: FileSystem, p: int, parent: Inode, name: seq<byte>) returns (c: int)
    requires Whole(fs) && InodeNumValid(p) && parent.Rec() == fs.table.slots[p] && parent.isAllocated && parent.isDir
    requires 0 !in name && Step(NamesOf(fs), p, name) == -1 && Proper(NamesOf(fs))
    modifies fs`maps, fs`leaked, fs`dirs, fs.disk, fs.disk.mem, fs.table, fs.table.rows, parent
    ensures Whole(fs)
    ensures |old(fs.maps)| == |old(fs.dirs)| == INODE_BLOCK_COUNT == |fs.dirs| == |fs.maps|
    ensures |fs.table.slots| == |old(fs.table.slots)| == INODE_BLOCK_COUNT * INODES_PER_BLOCK
    ensures c != -1 <==>
      && NameOk(name) && HasFree(old(fs.table.slots))
      && RoomForEntry(old(fs.disk.live), old(fs.maps)[p], old(fs.dirs)[p], name)
    ensures c != -1 ==>
      Spare(fs.disk.live) == Spare(old(fs.disk.live)) - EntryTakes(old(fs.maps)[p], old(fs.dirs)[p], name)
    ensures c == -1 ==>
      && fs.table.slots == old(fs.table.slots) && fs.dirs == old(fs.dirs) && fs.maps == old(fs.maps)
      && Kept(old(fs.At(fs.table.slots)), {}, fs.At(fs.table.slots))
      && NotCreated(old(fs.At(fs.table.slots)), p, name, fs.At(fs.table.slots))
    ensures c != -1 ==>
      && InodeNumValid(c) && c != p && !old(fs.table.slots)[c].isAllocated
      && (forall k :: 0 <= k < c ==> old(fs.table.slots)[k].isAllocated)
      && fs.table.slots == old(fs.table.slots)[c := Claimed(old(fs.table.slots)[c])][p := parent.Rec()]
      && SameAddresses(BlankRecord(), Claimed(old(fs.table.slots)[c]))
      && parent.isAllocated && parent.isDir && CountedOne(old(parent.Rec()), parent.Rec())
      && fs.leaked == old(fs.leaked) && fs.maps[c] == EMPTY_MAP && fs.dirs[c] == []
      && fs.dirs == old(fs.dirs)[p := WithEntry(old(fs.dirs)[p], DirectoryBlocks.Entry(c, name))]
    ensures c != -1 ==>
      && p in old(NamesOf(fs)) && c !in old(NamesOf(fs))
      && NamesOf(fs) == NS.AddedName(WithClaimed(old(NamesOf(fs)), c, old(fs.table.slots)[c].isDir), p, name, c)
      && Kept(old(fs.At(fs.table.slots)), {c} + {p}, fs.At(fs.table.slots))
      && Leads(old(fs.At(fs.table.slots)), fs.At(fs.table.slots))
    ensures c != -1 && old(Tidy(fs.At(fs.table.slots))) ==> Tidy(fs.At(fs.table.slots))
  {
    hide Leads, Sound, Tidy, Listed, TreeOf, Step, Proper, RoomForEntry, EntryTakes, HasFree, Spare, Kept, Moved,
         CountedOne, NotCreated, Wasted, NameOk, WithEntry, fs.disk.Valid, fs.table.Valid;
    ghost var slots, dirs, v := fs.table.slots, fs.dirs, fs.At(fs.table.slots);
    TableSize(fs);
    ListedSizes(v.store.img, slots, v.maps, dirs);
    ghost var tree := NamesOf(fs);
    InTree(slots, dirs, p);
    c := Create(fs);
    NothingMoved(v);
    SpareIsNatural(fs.disk);
    KeptAll(v, v);
    FreeNumber(slots, c);
    if c == -1 {
      NoNumber(v, p, name);
      return;
    }
    SlotKept(v, c, fs.table.slots[c]);
    ghost var v1 := fs.At(fs.table.slots);
    ClaimedListed(v, dirs, c);
    ProperMore(tree, c, slots[c].isDir, NamesOf(fs), p, name);
    var added := EnterName(fs, p, parent, c, name);
    ghost var v2 := fs.At(fs.table.slots);
    TableSize(fs);
    if !added {
      UndoCreate(fs, c, slots);
      KeptUndone(v, v1, v2, fs.At(slots), slots);
      NotEntered(v, v1, p, name, v2, fs.At(slots));
      return -1;
    }
    KeptTwice(v, {c}, v1, {p}, v2);
    LeadsFar(v, v1, v2);
    ListedSizes(fs.disk.img, fs.table.slots, fs.maps, fs.dirs);
  }

  /** The tree right after number c was taken, if what it was last was a directory. */
  function WithClaimed(tree: Tree, c: int, wasDir: bool): Tree {
    if wasDir then tree[c := map[]] else tree
  }

  /** Without a possible name, a free number, or a spare block, a failed creation keeps the zeros and leaks nothing. */
  ghost predicate NotCreated(v: Volume, p: int, name: seq<byte>, v': Volume) {
    && 0 <= p < |v.maps|
    && if NameOk(name) && HasFree(v.slots) then
         && Wasted(v, |v.maps[p].Data()|, v')
         && (Spare(v.store.live) == 0 && Tidy(v) ==> Tidy(v'))
       else
         v'.leaked == v.leaked && v'.store.live == v.store.live && (Tidy(v) ==> Tidy(v'))
  }

  lemma NoNumber(v: Volume, p: int, name: seq<byte>)
    requires 0 <= p < |v.maps| && !HasFree(v.slots)
    ensures NotCreated(v, p, name, v)
  {
    hide HasFree, NameOk;
  }

  lemma NotEntered(v: Volume, v1: Volume, p: int, name: seq<byte>, v2: Volume, v3: Volume)
    requires 0 <= p < |v.maps| && v1 == v.(slots := v1.slots) && HasFree(v.slots)
    requires NameOk(name) ==> v2.maps == v1.maps && Wasted(v1, |v2.maps[p].Data()|, v2)
    requires !(NameOk(name) && Spare(v1.store.live) > 0) ==> v2 == v1
    requires v3.leaked == v2.leaked && v3.store.live == v2.store.live && 0 <= Spare(v.store.live)
    requires (Tidy(v) ==> Tidy(v1)) && (Tidy(v2) ==> Tidy(v3))
    ensures NotCreated(v, p, name, v3)
  {
    hide HasFree, NameOk, Tidy;
  }

  /** Makes the entry for a new inode in its loaded parent directory, and the inode. */
  method CreateIn(fs: FileSystem, p: int, parent: Inode, name: seq<byte>, isDir: bool,
                  canWrite: bool) returns (code: int, node: Inode?)
    requires Whole(fs) && InodeNumValid(p) && parent.Rec() == fs.table.slots[p] && parent.isAllocated && parent.isDir
    requires parent.canWrite
    requires 0 !in name && Step(NamesOf(fs), p, name) == -1 && Proper(NamesOf(fs))
    modifies fs`maps, fs`leaked, fs`dirs, fs.disk, fs.disk.mem, fs.table, fs.table.rows, parent
    ensures Whole(fs)
    ensures code >= 0 || code == -EDQUOT
    ensures |old(fs.maps)| == |old(fs.dirs)| == INODE_BLOCK_COUNT == |fs.dirs| == |fs.maps|
    ensures code >= 0 <==>
      && NameOk(name) && HasFree(old(fs.table.slots))
      && RoomForEntry(old(fs.disk.live), old(fs.maps)[p], old(fs.dirs)[p], name)
    ensures code >= 0 ==>
      Spare(fs.disk.live) == Spare(old(fs.disk.live)) - EntryTakes(old(fs.maps)[p], old(fs.dirs)[p], name)
    ensures code < 0 ==>
      && fs.table.slots == old(fs.table.slots) && fs.dirs == old(fs.dirs) && fs.maps == old(fs.maps)
      && NotCreated(old(fs.At(fs.table.slots)), p, name, fs.At(fs.table.slots))
    ensures code >= 0 ==>
      && NewFile(old(fs.table.slots), old(NamesOf(fs)), p, name, code, isDir, canWrite, fs.table.slots, NamesOf(fs))
      && node != null && fresh(node) && node.Rec() == fs.table.slots[code] && fs.leaked == old(fs.leaked)
    ensures code >= 0 && old(Tidy(fs.At(fs.table.slots))) ==> Tidy(fs.At(fs.table.slots))
    ensures code >= 0 ==>
      && fs.maps[code] == EMPTY_MAP && fs.dirs[code] == []
      && fs.dirs == old(fs.dirs)[p := WithEntry(old(fs.dirs)[p], DirectoryBlocks.Entry(code, name))]
    ensures Kept(old(fs.At(fs.table.slots)), if code >= 0 then {p, code} else {}, fs.At(fs.table.slots))
    ensures code >= 0 ==> Leads(old(fs.At(fs.table.slots)), fs.At(fs.table.slots))
  {
    hide Leads, Sound, Tidy, Listed, TreeOf, Step, Proper, RoomForEntry, EntryTakes, HasFree, Spare, Kept, Moved,
         WithNew, CountedOne, NewFile, NotCreated, NameOk, WithEntry, fs.disk.Valid, fs.table.Valid;
    ghost var slots, v := fs.table.slots, fs.At(fs.table.slots);
    ListedSizes(v.store.img, slots, v.maps, fs.dirs);
    ghost var tree := NamesOf(fs);
    node := null;
    var c := TakeNumber(fs, p, parent, name);
    if c == -1 {
      return -EDQUOT, null;
    }
    ghost var tree2, r, v2 := NamesOf(fs), parent.Rec(), fs.At(fs.table.slots);
    node := InitInode(fs, c, isDir, canWrite);
    ListedSizes(fs.disk.img, fs.table.slots, fs.maps, fs.dirs);
    NewFileTree(tree, p, name, c, slots[c].isDir, isDir, WithClaimed(tree, c, slots[c].isDir), tree2, NamesOf(fs));
    CreatedKept(v, v2, fs.At(fs.table.slots), p, c);
    IsNewFile(slots, tree, p, name, c, isDir, canWrite, r, fs.table.slots, NamesOf(fs));
    code := c;
  }

  lemma CreatedKept(v: Volume, v2: Volume, v3: Volume, p: int, c: int)
    requires Kept(v, {c} + {p}, v2) && Kept(v2, {c}, v3) && Leads(v, v2) && Leads(v2, v3)
    ensures Kept(v, {p, c}, v3) && Leads(v, v3)
  {
    hide Kept, Leads;
    KeptTwice(v, {c} + {p}, v2, {c}, v3);
    assert {c} + {p} + {c} == {p, c};
    LeadsFar(v, v2, v3);
  }

  lemma FreeNumber(slots: seq<Record>, c: int)
    requires |slots| >= INODE_BLOCK_COUNT
    requires c == -1 <==> forall k :: InodeNumValid(k) ==> slots[k].isAllocated
    ensures c == -1 <==> !HasFree(slots)
  {
  }

  lemma ParentStep(tree: Tree, root: int, path: Path)
    requires path != [] && root != -1 && Resolve(tree, root, path) == -1
    ensures path != ROOT_PATH && ParentPath(path) != []
    ensures var p := Resolve(tree, root, ParentPath(path)); p != -1 ==> Step(tree, p, FileName(path)) == -1
  {
    ParentSmaller(path);
  }

  lemma NameHasNoNul(path: Path)
    requires path != [] && 0 !in path
    ensures 0 !in FileName(path)
  {
  }

  /** What a new name needs: a writable parent directory, a name that is not too long, and a free inode number. */
  ghost predicate CanEnter(slots: seq<Record>, tree: Tree, p: int, name: seq<byte>) {
    && p in tree && InodeNumValid(p) && p < |slots| && slots[p].canWrite
    && NameOk(name) && HasFree(slots)
  }

  /** Whether there is space for the entry in directory p. */
  ghost predicate SpaceFor(v: Volume, dirs: seq<Directory>, p: int, name: seq<byte>) {
    0 <= p < |v.maps| && p < |dirs| && RoomForEntry(v.store.live, v.maps[p], dirs[p], name)
  }

  /** The blocks that are spare once the entry is there. */
  ghost function SpareAfter(v: Volume, dirs: seq<Directory>, p: int, name: seq<byte>): int {
    Spare(v.store.live) - if 0 <= p < |v.maps| && p < |dirs| then EntryTakes(v.maps[p], dirs[p], name) else 0
  }

  /** Why nothing can be created: p is no directory, or not writable, or the name, a number or the space is missing. */
  ghost function RefusalCode(slots: seq<Record>, tree: Tree, p: int): int {
    if p !in tree then -ENOENT
    else if 0 <= p < |slots| && !slots[p].canWrite then -EACCES
    else -EDQUOT
  }

  method CreateNewFile(fs: FileSystem, path: Path, isDir: bool, canWrite: bool)
    returns (code: int, node: Inode?, parentInum: int)
    requires Whole(fs) && path != [] && 0 !in path
    requires Proper(NamesOf(fs)) && fs.root != -1 && Resolve(NamesOf(fs), fs.root, path) == -1
    modifies fs`maps, fs`leaked, fs`dirs, fs.disk, fs.disk.mem, fs.table, fs.table.rows
    ensures Whole(fs)
    ensures ParentPath(path) != []
    ensures code == -ENOENT <==> Resolve(old(NamesOf(fs)), fs.root, ParentPath(path)) !in old(NamesOf(fs))
    ensures var p, name := Resolve(old(NamesOf(fs)), fs.root, ParentPath(path)), FileName(path);
      && (code < 0 ==> code == RefusalCode(old(fs.table.slots), old(NamesOf(fs)), p))
      && (code >= 0 <==>
            && CanEnter(old(fs.table.slots), old(NamesOf(fs)), p, name)
            && SpaceFor(old(fs.At(fs.table.slots)), old(fs.dirs), p, name))
      && (code >= 0 ==> Spare(fs.disk.live) == SpareAfter(old(fs.At(fs.table.slots)), old(fs.dirs), p, name))
    ensures code < 0 ==>
      && fs.table.slots == old(fs.table.slots) && fs.dirs == old(fs.dirs) && fs.maps == old(fs.maps)
      && if code == -EDQUOT then
           NotCreated(old(fs.At(fs.table.slots)), Resolve(old(NamesOf(fs)), fs.root, ParentPath(path)), FileName(path),
                      fs.At(fs.table.slots))
         else
           fs.At(fs.table.slots) == old(fs.At(fs.table.slots))
    ensures code >= 0 ==>
      && parentInum == Resolve(old(NamesOf(fs)), fs.root, ParentPath(path))
      && NewFile(old(fs.table.slots), old(NamesOf(fs)), parentInum, FileName(path), code, isDir, canWrite,
                 fs.table.slots, NamesOf(fs))
      && node != null && fresh(node) && node.Rec() == fs.table.slots[code] && fs.leaked == old(fs.leaked)
      && fs.maps[code] == EMPTY_MAP && fs.dirs[code] == []
      && 0 <= parentInum < |old(fs.dirs)|
      && fs.dirs == old(fs.dirs)[parentInum :=
           WithEntry(old(fs.dirs)[parentInum], DirectoryBlocks.Entry(code, FileName(path)))]
    ensures code >= 0 && old(Tidy(fs.At(fs.table.slots))) ==> Tidy(fs.At(fs.table.slots))
    ensures Kept(old(fs.At(fs.table.slots)), if code >= 0 then {parentInum, code} else {}, fs.At(fs.table.slots))
    ensures code >= 0 ==> Leads(old(fs.At(fs.table.slots)), fs.At(fs.table.slots))
  {
    hide WithEntry, NotCreated, Leads, Sound, Tidy, Listed, TreeOf, Step, Proper, Resolve, FileName, ParentPath,
         NewFile, Kept, HasFree, RoomForEntry, EntryTakes, Spare, fs.disk.Valid;
    NothingMoved(fs.At(fs.table.slots));
    ListedSizes(fs.disk.img, fs.table.slots, fs.maps, fs.dirs);
    KeptAll(fs.At(fs.table.slots), fs.At(fs.table.slots));
    node := null;
    ListedSizes(fs.disk.img, fs.table.slots, fs.maps, fs.dirs);
    ParentStep(NamesOf(fs), fs.root, path);
    var parentPath := CopyParentPath(path);
    parentInum := GetInodeOfFile(fs, parentPath);
    InTree(fs.table.slots, fs.dirs, parentInum);
    if parentInum == -1 {
      return -ENOENT, null, parentInum;
    }
    var parent := fs.table.LoadINode(parentInum);
    if parent == null || !parent.isDir {
      return -ENOENT, null, parentInum;
    }
    if !parent.canWrite {
      return -EACCES, null, parentInum;
    }
    NameHasNoNul(path);
    var childName := CopyFileName(path);
    code, node := CreateIn(fs, parentInum, parent, childName, isDir, canWrite);
  }

  // ----- the entries of a new directory -----

  lemma OtherSameTwice(v: Volume, v1: Volume, n: int, img': Image)
    requires InodeNumValid(n) && |v1.maps| == |v.maps| && n < |v.maps| && v1.maps == v.maps[n := v1.maps[n]]
    requires OtherDataSame(v, n, v1.store.img) && OtherDataSame(v1, n, img')
    ensures OtherDataSame(v, n, img')
  {
    forall k | InodeNumValid(k) && k < |v.maps| && k != n
      ensures DataSame(v.store.img, img', v.maps[k])
    {
      assert v1.maps[k] == v.maps[k];
      assert DataSame(v.store.img, v1.store.img, v.maps[k]) && DataSame(v1.store.img, img', v1.maps[k]);
    }
  }

  lemma DotNames()
    ensures NameOk(NS.DOT) && NameOk(NS.DOTDOT) && NS.DOT != NS.DOTDOT && 0 !in NS.DOT && 0 !in NS.DOTDOT
  {
  }

  /** A directory without blocks has room for an entry just when some block is spare. */
  lemma RoomInNew(live: set<int>, dir: Directory, name: seq<byte>)
    requires dir == []
    ensures RoomForEntry(live, EMPTY_MAP, dir, name) <==> 1 <= Spare(live)
  {
    hide Spare;
  }

  /** The entry `..` fits behind `.` in the same block. */
  lemma SecondFits(r: Record, dir: Directory, n: int, p: int, img1: Image, r1: Record, m1: BlockMap, dir1: Directory)
    requires dir == [] && InodeNumValid(n) && EntryPlaced(r, dir, Entry(n, NS.DOT), img1, r1, m1, dir1)
    ensures HasSlack(dir1, NS.DOTDOT)
    ensures WithEntry(dir1, Entry(p, NS.DOTDOT)) == [[Entry(n, NS.DOT), Entry(p, NS.DOTDOT)]]
  {
    var e := Entry(n, NS.DOT);
    assert dir1 == [[e]];
    hide Fits, HasSlack, EntryPlaced;
    TwoFit(n);
    SlackAt(dir1, 0, NS.DOTDOT);
    EntryGoes(dir1, Entry(p, NS.DOTDOT), 0);
    Both(e, Entry(p, NS.DOTDOT));
  }

  lemma TwoFit(n: int)
    requires InodeNumValid(n)
    ensures Fits([Entry(n, NS.DOT)] + [Entry(0, NS.DOTDOT)])
  {
    var e := Entry(n, NS.DOT);
    FirstWritten(e);
    FitsWhen([e], Entry(0, NS.DOTDOT));
    assert [e][..0] == [] && Records([e]) == [] + RecordBytes(e);
  }

  lemma Both(e: DirectoryBlocks.Entry, e': DirectoryBlocks.Entry)
    ensures [[e]][0 := [[e]][0] + [e']] == [[e, e']]
  {
    assert [e] + [e'] == [e, e'];
  }

  /** The directory counts its first two entries, in its first block. */
  predicate CountedTwo(r: Record, r': Record) {
    r' == r.(blocks := r'.blocks, direct := r'.direct, single := r'.single, double := r'.double, triple := r'.triple,
             fileSize := r.fileSize + BLOCK_SIZE * (r'.blocks - r.blocks), filesCount := r.filesCount + 2)
  }

  lemma CountsTwo(r: Record, r1: Record, r2: Record)
    requires CountedOne(r, r1) && CountedOne(r1, r2)
    ensures CountedTwo(r, r2)
  {
  }

  lemma EntryCounts(r: Record, dir: Directory, e: DirectoryBlocks.Entry, r': Record, dir': Directory)
    requires EntryAdded(r, dir, e, r', dir')
    ensures CountedOne(r, r')
  {
  }

  /** Adds `.` and `..` to a new directory and writes its inode. */
  method EnterDots(fs: FileSystem, n: int, node: Inode, p: int, ghost slots: seq<Record>) returns (ok: bool)
    requires fs.Stored() && Sound(fs.At(slots)) && Listed(fs.disk.img, slots, fs.maps, fs.dirs)
    requires InodeNumValid(n) && InodeNumValid(p) && node.isAllocated && node.isDir
    requires slots == fs.table.slots[n := node.Rec()] && fs.dirs[n] == [] && fs.maps[n] == EMPTY_MAP
    modifies fs`maps, fs`leaked, fs`dirs, fs.disk, fs.disk.mem, fs.table, fs.table.rows, node
    ensures fs.Stored() && (ok ==> Whole(fs))
    ensures ok <==> Spare(old(fs.disk.live)) > 0
    ensures !ok ==>
      fs.At(slots) == old(fs.At(slots)) && fs.dirs == old(fs.dirs) && fs.table.slots == old(fs.table.slots)
    ensures ok ==>
      && NamesOf(fs) == TreeOf(slots, old(fs.dirs))[n := map[NS.DOT := n, NS.DOTDOT := p]]
      && fs.table.slots == slots[n := node.Rec()]
      && node.isAllocated && node.isDir && node.linkCount == old(node.linkCount) && node.canWrite == old(node.canWrite)
      && fs.leaked == old(fs.leaked) && CountedTwo(old(node.Rec()), node.Rec())
    ensures ok && old(Tidy(fs.At(slots))) ==> Tidy(fs.At(fs.table.slots))
    ensures ok ==> Kept(old(fs.At(slots)), {n}, fs.At(fs.table.slots))
    ensures ok ==> |fs.dirs| == INODE_BLOCK_COUNT && fs.dirs[n] == [[Entry(n, NS.DOT), Entry(p, NS.DOTDOT)]]
    ensures ok ==> fs.dirs == old(fs.dirs)[n := fs.dirs[n]]
    ensures ok ==> Leads(old(fs.At(slots)), fs.At(fs.table.slots))
  {
    hide CountedTwo, Leads, Sound, Tidy, Listed, Lists, TreeOf, OtherDataSame, AllDataSame, EntryPlaced, EntryAdded,
         HasSlack, WithEntry, RoomForBlock, EntryTakes, Spare, Listing, Directories.Names, Distinct, NameOk, Kept,
         fs.disk.Valid, fs.table.Valid;
    ghost var dirs, v := fs.dirs, fs.At(slots);
    TableSize(fs);
    ListedSizes(v.store.img, slots, v.maps, dirs);
    InodeAt(v, v.store.img, dirs, n);
    DotNames();
    NoNames(dirs[n]);
    NumbersFit(n);
    NumbersFit(p);
    SpareIsNatural(fs.disk);
    RoomInNew(fs.disk.live, dirs[n], NS.DOT);
    ok := AddDirectoryEntry(fs, n, node, n, NS.DOT, slots);
    if !ok {
      return;
    }
    ghost var slots1, dirs1, r1 := slots[n := node.Rec()], fs.dirs, node.Rec();
    ghost var v1 := fs.At(slots1);
    FirstEntry(slots[n], dirs[n], n, r1, dirs1[n]);
    SecondFits(slots[n], dirs[n], n, p, fs.disk.img, r1, fs.maps[n], dirs1[n]);
    ok := AddDirectoryEntry(fs, n, node, p, NS.DOTDOT, slots1);
    if !ok {
      return;
    }
    ghost var r2 := node.Rec();
    EntryCounts(slots[n], dirs[n], DirectoryBlocks.Entry(n, NS.DOT), r1, dirs1[n]);
    EntryCounts(r1, dirs1[n], DirectoryBlocks.Entry(p, NS.DOTDOT), r2, fs.dirs[n]);
    CountsTwo(slots[n], r1, r2);
    OtherSameTwice(v, v1, n, fs.disk.img);
    DotsListed(v, dirs, n, p, fs.disk.img, r1, dirs1[n], r2, fs.maps[n], fs.dirs[n]);
    assert slots1[n := r2] == slots[n := r2] == fs.table.slots[n := r2];
    assert v.maps[n := fs.maps[n]] == fs.maps && dirs[n := fs.dirs[n]] == fs.dirs;
    KeptOthers(v, n, fs.At(slots[n := r2]));
    LeadsFar(v, v1, fs.At(slots[n := r2]));
    ok := Save(fs, n, node);
  }

  lemma NumbersFit(n: int)
    requires InodeNumValid(n)
    ensures IsInt64(n)
  {
  }

  lemma FirstEntry(r: Record, dir: Directory, n: int, r1: Record, dir1: Directory)
    requires dir == [] && EntryAdded(r, dir, Entry(n, NS.DOT), r1, dir1)
    ensures Directories.Names(Listing(dir1)) == map[NS.DOT := n] && NS.DOTDOT !in Directories.Names(Listing(dir1))
    ensures r1.isAllocated == r.isAllocated && r1.isDir == r.isDir && r1.linkCount == r.linkCount
    ensures r1.canWrite == r.canWrite
  {
    NoNames(dir);
  }

  lemma DotsListed(v: Volume, dirs: seq<Directory>, n: int, p: int, img': Image, r1: Record, dir1: Directory,
                   r2: Record, m2: BlockMap, dir2: Directory)
    requires InodeNumValid(n) && Listed(v.store.img, v.slots, v.maps, dirs) && OtherDataSame(v, n, img')
    requires r1.isAllocated && r1.isDir && Directories.Names(Listing(dir1)) == map[NS.DOT := n]
    requires Lists(img', r2, m2, dir2) && EntryAdded(r1, dir1, Entry(p, NS.DOTDOT), r2, dir2)
    ensures Listed(img', v.slots[n := r2], v.maps[n := m2], dirs[n := dir2])
    ensures TreeOf(v.slots[n := r2], dirs[n := dir2]) == TreeOf(v.slots, dirs)[n := map[NS.DOT := n, NS.DOTDOT := p]]
    ensures r2.isAllocated && r2.isDir && r2.linkCount == r1.linkCount && r2.canWrite == r1.canWrite
  {
    hide OtherDataSame, Lists, TreeOf, Listing, Directories.Names;
    ListedReplaced(v, dirs, n, img', r2, m2, dir2);
    TreeReplaced(v.slots, dirs, n, r2, dir2);
  }

  lemma ProperFile(tree: Tree, p: int, name: seq<byte>, n: int)
    requires Proper(tree) && p in tree && n >= 0
    ensures Proper(NS.AddedName(tree, p, name, n))
  {
  }

  lemma ProperDirectory(tree: Tree, p: int, name: seq<byte>, n: int)
    requires Proper(tree) && p in tree && n >= 0 && p >= 0
    ensures Proper(NS.AddedName(tree, p, name, n)[n := map[NS.DOT := n, NS.DOTDOT := p]])
  {
  }

  lemma LinksOfNew(slots: seq<Record>, p: int, n: int, r': Record, p': Record)
    requires OneLinkEach(slots) && InodeNumValid(p) && InodeNumValid(n) && n != p && |slots| >= INODE_BLOCK_COUNT
    requires slots[p].isAllocated && p'.isAllocated && p'.linkCount == slots[p].linkCount && r'.isAllocated
    requires r'.linkCount == 1
    ensures OneLinkEach(slots[p := p'][n := r'])
    ensures Used(slots[p := p'][n := r']) == Used(slots) + {n}
  {
    UsedReplaced(slots, p, p');
    UsedReplaced(slots[p := p'], n, r');
  }

  /** A new file keeps the tree. */
  lemma NewFileHealthy(slots: seq<Record>, tree: Tree, root: int, p: int, name: seq<byte>, n: int, canWrite: bool,
                       slots': seq<Record>, tree': Tree)
    requires |slots| == |slots'| == INODE_BLOCK_COUNT * INODES_PER_BLOCK
    requires NS.TreeShape(tree, Used(slots), root) && OneLinkEach(slots) && Proper(tree)
    requires NewFile(slots, tree, p, name, n, false, canWrite, slots', tree')
    requires Step(tree, p, name) == -1 && !NS.Special(name)
    ensures NS.TreeShape(tree', Used(slots'), root) && OneLinkEach(slots') && Proper(tree')
    ensures tree' == NS.AddedName(tree, p, name, n) && Used(slots') == Used(slots) + {n}
  {
    hide NS.TreeShape, OneLinkEach, Used, Proper, NS.AddedName, Step, NS.Special;
    NewUsed(slots, tree, root, p, name, n, false, canWrite, slots', tree');
    LinksOfNew(slots, p, n, slots'[n], slots'[p]);
    NS.AddFileShape(tree, Used(slots), root, p, name, n);
    ProperFile(tree, p, name, n);
  }

  lemma NewUsed(slots: seq<Record>, tree: Tree, root: int, p: int, name: seq<byte>, n: int, isDir: bool, canWrite: bool,
                slots': seq<Record>, tree': Tree)
    requires |slots| == |slots'| == INODE_BLOCK_COUNT * INODES_PER_BLOCK
    requires NS.TreeShape(tree, Used(slots), root) && Proper(tree) && Step(tree, p, name) == -1
    requires NewFile(slots, tree, p, name, n, isDir, canWrite, slots', tree')
    ensures n !in Used(slots) && n != p && slots[p].isAllocated && name !in tree[p]
    ensures slots'[p].linkCount == slots[p].linkCount
    ensures slots' == slots[p := slots'[p]][n := slots'[n]]
  {
    StepAbsent(tree, p, name);
    UsedReplaced(slots, n, slots[n]);
    UsedReplaced(slots, p, slots[p]);
    assert p in Used(slots);
  }

  lemma StepAbsent(tree: Tree, p: int, name: seq<byte>)
    requires Proper(tree) && p in tree && Step(tree, p, name) == -1
    ensures name !in tree[p]
  {
  }

  /** So does a new directory, once it has its two entries. */
  lemma NewDirectoryHealthy(slots: seq<Record>, tree: Tree, root: int, p: int, name: seq<byte>, n: int, canWrite: bool,
                            slots': seq<Record>, tree': Tree, r': Record)
    requires |slots| == |slots'| == INODE_BLOCK_COUNT * INODES_PER_BLOCK
    requires NS.TreeShape(tree, Used(slots), root) && OneLinkEach(slots) && Proper(tree)
    requires NewFile(slots, tree, p, name, n, true, canWrite, slots', tree')
    requires Step(tree, p, name) == -1 && !NS.Special(name)
    requires r'.isAllocated && r'.linkCount == 1
    ensures var tree2, slots2 := tree'[n := map[NS.DOT := n, NS.DOTDOT := p]], slots'[n := r'];
      && NS.TreeShape(tree2, Used(slots2), root) && OneLinkEach(slots2) && Proper(tree2)
      && n != p && tree2 == NS.AddedName(tree, p, name, n)[n := map[NS.DOT := n, NS.DOTDOT := p]]
      && Used(slots2) == Used(slots) + {n}
  {
    hide NS.TreeShape, OneLinkEach, Used, Proper, NS.AddedName, Step, NS.Special, Claimed;
    NewUsed(slots, tree, root, p, name, n, true, canWrite, slots', tree');
    assert slots'[n := r'] == slots[p := slots'[p]][n := r'];
    LinksOfNew(slots, p, n, r', slots'[p]);
    assert tree'[n := map[NS.DOT := n, NS.DOTDOT := p]]
      == NS.AddedName(tree, p, name, n)[n := map[NS.DOT := n, NS.DOTDOT := p]];
    NS.AddDirectoryShape(tree, Used(slots), root, p, name, n);
    ProperDirectory(tree, p, name, n);
  }

  /** A path of plain components, from the root. */
  ghost predicate PlainPath(path: Path, cs: seq<seq<byte>>) {
    path != [] && Spells(path, cs) && NS.Plain(cs)
  }

  lemma {:induction false} NoNul(cs: seq<seq<byte>>)
    requires Components(cs)
    ensures 0 !in Text(cs)
  {
    if cs != [] {
      NoNul(cs[..|cs| - 1]);
      assert Component(cs[|cs| - 1]);
    }
  }

  lemma PathParts(tree: Tree, root: int, path: Path, cs: seq<seq<byte>>)
    requires PlainPath(path, cs) && root >= 0
    ensures 0 !in path && Resolve(tree, root, path) == Walk(tree, root, cs)
    ensures cs != [] ==>
      && ParentPath(path) != [] && Resolve(tree, root, ParentPath(path)) == Walk(tree, root, cs[..|cs| - 1])
      && FileName(path) == cs[|cs| - 1] && !NS.Special(cs[|cs| - 1]) && NS.Plain(cs[..|cs| - 1])
      && PlainPath(ParentPath(path), cs[..|cs| - 1])
  {
    NoNul(cs);
    ResolveIsWalk(tree, root, path, cs);
    if cs != [] {
      SplitPath(path, cs);
      ParentSmaller(path);
      NS.PlainPrefix(cs);
      ResolveIsWalk(tree, root, ParentPath(path), cs[..|cs| - 1]);
    }
  }

  function ParentOf(tree: Tree, root: int, cs: seq<seq<byte>>): int
    requires cs != []
  {
    Walk(tree, root, cs[..|cs| - 1])
  }

  /** Whether a file or directory can be made at the path, space apart. */
  ghost predicate CanCreate(slots: seq<Record>, tree: Tree, root: int, cs: seq<seq<byte>>) {
    cs != [] && Walk(tree, root, cs) == -1 && CanEnter(slots, tree, ParentOf(tree, root, cs), cs[|cs| - 1])
  }

  /** A refusal for other reasons than space, or with no block spare at all, changes nothing the zeros depend on. */
  lemma RefusedTidy(v': Volume, v: Volume, tree: Tree, p: int, name: seq<byte>, code: int)
    requires p in tree ==> InodeNumValid(p) && p < |v.slots|
    requires code < 0 ==>
      && code == RefusalCode(v.slots, tree, p)
      && if code == -EDQUOT then NotCreated(v, p, name, v') else v' == v
    ensures code < 0 && (!CanEnter(v.slots, tree, p, name) || Spare(v.store.live) == 0) ==>
      (Tidy(v) ==> Tidy(v')) && v'.leaked == v.leaked
    ensures code < 0 && CanEnter(v.slots, tree, p, name) ==> NotCreated(v, p, name, v')
  {
    hide HasFree, NameOk, Tidy, Spare;
    if code < 0 && NotCreated(v, p, name, v') && |v'.leaked| == |v.leaked| && v.leaked <= v'.leaked {
      SameSize(v.leaked, v'.leaked);
    }
  }

  lemma SameSize(a: multiset<int>, b: multiset<int>)
    requires a <= b && |a| == |b|
    ensures a == b
  {
    assert b == a + (b - a);
    assert |b - a| == 0;
  }

  /** Creates a regular file. */
  method Mknod(fs: FileSystem, path: Path, canWrite: bool, ghost cs: seq<seq<byte>>) returns (ok: bool, ghost n: int)
    requires Healthy(fs) && PlainPath(path, cs)
    modifies fs`maps, fs`leaked, fs`dirs, fs.disk, fs.disk.mem, fs.table, fs.table.rows
    ensures ok <==>
      && CanCreate(old(fs.table.slots), old(NamesOf(fs)), fs.root, cs)
      && SpaceFor(old(fs.At(fs.table.slots)), old(fs.dirs), ParentOf(old(NamesOf(fs)), fs.root, cs), cs[|cs| - 1])
    ensures Whole(fs)
    ensures ok || !CanCreate(old(fs.table.slots), old(NamesOf(fs)), fs.root, cs) || Spare(old(fs.disk.live)) == 0 ==>
      Healthy(fs) && (ok || fs.leaked == old(fs.leaked))
    ensures !ok ==> fs.table.slots == old(fs.table.slots) && fs.dirs == old(fs.dirs)
    ensures !ok ==> Kept(old(fs.At(fs.table.slots)), {}, fs.At(fs.table.slots))
    ensures !ok && CanCreate(old(fs.table.slots), old(NamesOf(fs)), fs.root, cs) ==>
      NotCreated(old(fs.At(fs.table.slots)), ParentOf(old(NamesOf(fs)), fs.root, cs), cs[|cs| - 1],
                 fs.At(fs.table.slots))
    ensures ok ==>
      && cs != [] && fs.leaked == old(fs.leaked)
      && var p, name := Walk(old(NamesOf(fs)), fs.root, cs[..|cs| - 1]), cs[|cs| - 1];
      && p in old(NamesOf(fs)) && name !in old(NamesOf(fs))[p]
      && NewFile(old(fs.table.slots), old(NamesOf(fs)), p, name, n, false, canWrite, fs.table.slots, NamesOf(fs))
      && NamesOf(fs) == NS.AddedName(old(NamesOf(fs)), p, name, n)
      && 0 <= p < |old(fs.dirs)|
      && fs.dirs == old(fs.dirs)[p := WithEntry(old(fs.dirs)[p], DirectoryBlocks.Entry(n, name))]
      && Kept(old(fs.At(fs.table.slots)), {p, n}, fs.At(fs.table.slots))
    ensures ok ==> Leads(old(fs.At(fs.table.slots)), fs.At(fs.table.slots))
  {
    hide WithEntry, NotCreated, RefusalCode, HasFree, Leads, Sound, Tidy, Listed, TreeOf, Step, Walk, Proper, Resolve,
         FileName, ParentPath, NewFile, NS.TreeShape, OneLinkEach, PlainPath, Kept, CanEnter, SpaceFor, SpareAfter,
         fs.disk.Valid, fs.table.Valid;
    ghost var slots, dirs, v := fs.table.slots, fs.dirs, fs.At(fs.table.slots);
    TableSize(fs);
    ListedSizes(fs.disk.img, slots, fs.maps, dirs);
    ghost var tree := NamesOf(fs);
    NS.RootIsNatural(tree, Used(slots), fs.root);
    PathParts(tree, fs.root, path, cs);
    PathIsNotEmpty(path, cs);
    NothingMoved(fs.At(slots));
    KeptAll(fs.At(slots), fs.At(slots));
    n := -1;
    var inum := GetInodeOfFile(fs, path);
    if inum != -1 {
      return false, n;
    }
    RootWalk(tree, fs.root, cs);
    ParentStep(tree, fs.root, path);
    var code, node, parentInum := CreateNewFile(fs, path, false, canWrite);
    InTree(slots, dirs, ParentOf(tree, fs.root, cs));
    RefusedTidy(fs.At(slots), v, tree, ParentOf(tree, fs.root, cs), cs[|cs| - 1], code);
    if code <= -1 {
      return false, n;
    }
    ListedSizes(fs.disk.img, fs.table.slots, fs.maps, fs.dirs);
    TableSize(fs);
    NewParts(slots, tree, parentInum, cs[|cs| - 1], code, false, canWrite, fs.table.slots, NamesOf(fs));
    NewFileHealthy(slots, tree, fs.root, parentInum, cs[|cs| - 1], code, canWrite, fs.table.slots, NamesOf(fs));
    StepAbsent(tree, parentInum, cs[|cs| - 1]);
    return true, code;
  }

  lemma PathIsNotEmpty(path: Path, cs: seq<seq<byte>>)
    requires PlainPath(path, cs)
    ensures path != []
  {
  }

  lemma RootWalk(tree: Tree, root: int, cs: seq<seq<byte>>)
    requires Walk(tree, root, cs) == -1 && root >= 0
    ensures cs != []
  {
  }

  lemma NewParts(slots: seq<Record>, tree: Tree, p: int, name: seq<byte>, n: int, isDir: bool, canWrite: bool,
                 slots': seq<Record>, tree': Tree)
    requires |slots| == |slots'| == INODE_BLOCK_COUNT * INODES_PER_BLOCK
    requires NewFile(slots, tree, p, name, n, isDir, canWrite, slots', tree')
    ensures p in tree && InodeNumValid(p) && InodeNumValid(n)
    ensures !slots[n].isAllocated && slots'[n].isAllocated && slots'[n].isDir == isDir && slots'[n].linkCount == 1
    ensures slots'[n].canWrite == canWrite && (n != p ==> CountedOne(slots[p], slots'[p]))
    ensures slots'[n] == NewRecord(Claimed(slots[n]), isDir, canWrite)
    ensures tree' == WithNew(tree, p, name, n, isDir)
  {
  }

  /** Creates a directory, with `.` and `..` in it. */
  method Mkdir(fs: FileSystem, path: Path, canWrite: bool, ghost cs: seq<seq<byte>>) returns (ok: bool, ghost n: int)
    requires Healthy(fs) && PlainPath(path, cs)
    modifies fs`maps, fs`leaked, fs`dirs, fs.disk, fs.disk.mem, fs.table, fs.table.rows
    ensures Whole(fs)
    ensures var slots, tree, v := old(fs.table.slots), old(NamesOf(fs)), old(fs.At(fs.table.slots));
      var p, name := if cs == [] then -1 else ParentOf(tree, fs.root, cs), if cs == [] then [] else cs[|cs| - 1];
      && (ok <==> CanCreate(slots, tree, fs.root, cs) && SpaceFor(v, old(fs.dirs), p, name)
                  && SpareAfter(v, old(fs.dirs), p, name) > 0)
      && (ok || !CanCreate(slots, tree, fs.root, cs) ==> Healthy(fs))
      && (Spare(v.store.live) == 0 && !SpaceFor(v, old(fs.dirs), p, name) ==> Healthy(fs))
      && (!CanCreate(slots, tree, fs.root, cs) || !SpaceFor(v, old(fs.dirs), p, name) ==>
            && fs.table.slots == slots && fs.dirs == old(fs.dirs) && Kept(v, {}, fs.At(fs.table.slots))
            && (CanCreate(slots, tree, fs.root, cs) ==> NotCreated(v, p, name, fs.At(fs.table.slots))))
      && (!ok && CanCreate(slots, tree, fs.root, cs) && SpaceFor(v, old(fs.dirs), p, name) ==>
            && p in tree && NamesOf(fs) == NS.AddedName(tree, p, name, n)[n := map[]]
            && Kept(v, {p, n}, fs.At(fs.table.slots)))
    ensures ok ==>
      && cs != [] && fs.leaked == old(fs.leaked)
      && var p, name := Walk(old(NamesOf(fs)), fs.root, cs[..|cs| - 1]), cs[|cs| - 1];
      && p in old(NamesOf(fs)) && name !in old(NamesOf(fs))[p]
      && InodeNumValid(n) && !old(fs.table.slots)[n].isAllocated && fs.table.slots[n].isAllocated
      && NamesOf(fs) == NS.AddedName(old(NamesOf(fs)), p, name, n)[n := map[NS.DOT := n, NS.DOTDOT := p]]
      && Used(fs.table.slots) == Used(old(fs.table.slots)) + {n}
      && fs.table.slots[n].isDir && fs.table.slots[n].canWrite == canWrite
      && CountedTwo(NewRecord(Claimed(old(fs.table.slots)[n]), true, canWrite), fs.table.slots[n])
      && 0 <= p < |old(fs.dirs)| == INODE_BLOCK_COUNT
      && fs.dirs == old(fs.dirs)[p := WithEntry(old(fs.dirs)[p], Entry(n, name))]
                                [n := [[Entry(n, NS.DOT), Entry(p, NS.DOTDOT)]]]
      && CountedOne(old(fs.table.slots)[p], fs.table.slots[p])
      && Kept(old(fs.At(fs.table.slots)), {p, n}, fs.At(fs.table.slots))
    ensures ok ==> Leads(old(fs.At(fs.table.slots)), fs.At(fs.table.slots))
  {
    hide WithEntry, CountedTwo, NotCreated, RefusalCode, HasFree, Leads, Sound, Tidy, Listed, TreeOf, Step, Walk,
         Proper, Resolve, FileName, ParentPath, NewFile, NS.TreeShape, OneLinkEach, PlainPath, Used, Kept, CanEnter,
         SpaceFor, SpareAfter, Spare, fs.disk.Valid, fs.table.Valid;
    ghost var slots, dirs := fs.table.slots, fs.dirs;
    TableSize(fs);
    ListedSizes(fs.disk.img, slots, fs.maps, dirs);
    ghost var tree := NamesOf(fs);
    NS.RootIsNatural(tree, Used(slots), fs.root);
    PathParts(tree, fs.root, path, cs);
    PathIsNotEmpty(path, cs);
    ghost var v := fs.At(slots);
    NothingMoved(v);
    KeptAll(v, v);
    n := -1;
    var inum := GetInodeOfFile(fs, path);
    if inum != -1 {
      return false, n;
    }
    RootWalk(tree, fs.root, cs);
    ParentStep(tree, fs.root, path);
    var code, node, parentInum := CreateNewFile(fs, path, true, canWrite);
    InTree(slots, dirs, ParentOf(tree, fs.root, cs));
    RefusedTidy(fs.At(slots), v, tree, ParentOf(tree, fs.root, cs), cs[|cs| - 1], code);
    if code <= -1 {
      return false, n;
    }
    ListedSizes(fs.disk.img, fs.table.slots, fs.maps, fs.dirs);
    TableSize(fs);
    ghost var slots1, tree1, v1 := fs.table.slots, NamesOf(fs), fs.At(fs.table.slots);
    NewParts(slots, tree, parentInum, cs[|cs| - 1], code, true, canWrite, slots1, tree1);
    StepAbsent(tree, parentInum, cs[|cs| - 1]);
    n := code;
    assert fs.table.slots[code := node.Rec()] == fs.table.slots;
    ok := EnterDots(fs, code, node, parentInum, fs.table.slots);
    if ok {
      KeptTwice(v, {parentInum, code}, v1, {code}, fs.At(fs.table.slots));
      LeadsFar(v, v1, fs.At(fs.table.slots));
      assert {parentInum, code} + {code} == {parentInum, code};
      NewDirectoryHealthy(slots, tree, fs.root, parentInum, cs[|cs| - 1], code, canWrite, slots1, tree1, node.Rec());
    }
  }

  // ----- removing -----

  lemma RemovedListed(v: Volume, dirs: seq<Directory>, p: int, x: int, name: seq<byte>, s1: Store, r': Record,
                      dir': Directory, s2: Store)
    requires InodeNumValid(p) && InodeNumValid(x) && p != x
    requires Listed(v.store.img, v.slots, v.maps, dirs) && OtherDataSame(v, p, s1.img)
    requires v.slots[p].isAllocated && v.slots[p].isDir && Lists(s1.img, r', v.maps[p], dir')
    requires EntryRemoved(v.slots[p], dirs[p], name, r', dir')
    requires OtherDataSame(v.(store := s1), x, s2.img)
    ensures Listed(s2.img, v.slots[x := Erased(v.slots[x])][p := r'], v.maps[x := EMPTY_MAP], dirs[p := dir'][x := []])
    ensures p in TreeOf(v.slots, dirs)
    ensures TreeOf(v.slots[x := Erased(v.slots[x])][p := r'], dirs[p := dir'][x := []])
      == NS.RemovedName(TreeOf(v.slots, dirs), p, name) - {x}
  {
    hide OtherDataSame, Lists, Listed, TreeOf, Listing, Directories.Names;
    ListedSizes(v.store.img, v.slots, v.maps, dirs);
    ListedReplaced(v, dirs, p, s1.img, r', v.maps[p], dir');
    assert v.maps[p := v.maps[p]] == v.maps;
    TreeReplaced(v.slots, dirs, p, r', dir');
    var v1, e := Volume(s1, v.slots[p := r'], v.maps, v.leaked), Erased(v.slots[x]);
    SameMaps(v.(store := s1), v1, x, s2.img);
    EmptyLists(s2.img, e);
    ListedReplaced(v1, dirs[p := dir'], x, s2.img, e, EMPTY_MAP, []);
    TreeReplaced(v1.slots, dirs[p := dir'], x, e, []);
    assert v1.slots[x := e] == v.slots[x := e][p := r'];
  }

  lemma SameMaps(v: Volume, v1: Volume, n: int, img': Image)
    requires OtherDataSame(v, n, img') && v1.maps == v.maps && v1.store == v.store
    ensures OtherDataSame(v1, n, img')
  {
  }

  lemma LinksOfRemoved(slots: seq<Record>, p: int, x: int, p': Record, tree: Tree)
    requires OneLinkEach(slots) && InodeNumValid(p) && InodeNumValid(x) && x != p && |slots| >= INODE_BLOCK_COUNT
    requires slots[p].isAllocated && p'.isAllocated && p'.linkCount == slots[p].linkCount
    ensures OneLinkEach(slots[x := Erased(slots[x])][p := p'])
    ensures Used(slots[x := Erased(slots[x])][p := p']) == Used(slots) - {x}
  {
    UsedReplaced(slots, x, Erased(slots[x]));
    UsedReplaced(slots[x := Erased(slots[x])], p, p');
  }

  lemma ProperRemoved(tree: Tree, p: int, name: seq<byte>, x: int)
    requires Proper(tree) && p in tree
    ensures Proper(NS.RemovedName(tree, p, name) - {x})
  {
  }

  /** Takes a link from an inode: the last one takes the inode with it. */
  method DropLink(fs: FileSystem, x: int, node: Inode)
    requires fs.Stored() && Sound(fs.At(fs.table.slots)) && InodeNumValid(x) && CleanAt(fs.At(fs.table.slots), x)
    requires node.Rec() == fs.table.slots[x] && node.isAllocated
    modifies fs`maps, fs.disk, fs.disk.mem, fs.table, fs.table.rows, node
    ensures fs.Stored() && Sound(fs.At(fs.table.slots)) && |old(fs.maps)| == INODE_BLOCK_COUNT
    ensures old(Tidy(fs.At(fs.table.slots))) ==> Tidy(fs.At(fs.table.slots))
    ensures old(node.linkCount) != 1 ==>
      && fs.table.slots == old(fs.table.slots)[x := old(node.Rec()).(linkCount := old(node.linkCount) - 1)]
      && fs.disk.Now() == old(fs.disk.Now()) && fs.maps == old(fs.maps)
    ensures old(node.linkCount) == 1 ==>
      && fs.table.slots == old(fs.table.slots)[x := Erased(old(fs.table.slots)[x])]
      && fs.maps == old(fs.maps)[x := EMPTY_MAP]
      && multiset(fs.disk.live) + Owned(old(fs.maps)[x]) == multiset(old(fs.disk.live))
      && OtherDataSame(old(fs.At(fs.table.slots)), x, fs.disk.img)
    ensures Leads(old(fs.At(fs.table.slots)), fs.At(fs.table.slots))
  {
    hide Leads, Sound, Tidy, CleanAt, OtherDataSame, Owned, fs.disk.Valid, fs.table.Valid;
    ghost var v := fs.At(fs.table.slots);
    SlotMap(v, x);
    node.linkCount := node.linkCount - 1;
    if node.linkCount == 0 {
      var _ := DeleteInode(fs, x);
    } else {
      var _ := SaveEdited(fs, x, node);
    }
  }

  lemma KeptRemoved(v: Volume, p: int, x: int, v1: Volume, v2: Volume, r': Record)
    requires InodeNumValid(p) && InodeNumValid(x) && |v.maps| == INODE_BLOCK_COUNT <= |v.slots|
    requires v1.slots == v.slots && v1.maps == v.maps && OtherDataSame(v, p, v1.store.img)
    requires |v2.slots| == |v.slots| && |v2.maps| == |v.maps|
    requires v2.slots == v.slots[x := v2.slots[x]] && v2.maps == v.maps[x := v2.maps[x]]
    requires OtherDataSame(v1, x, v2.store.img)
    ensures Kept(v, {p, x}, v2.(slots := v2.slots[p := r']))
  {
    hide OtherDataSame, Kept;
    assert v1.slots == v.slots[p := v1.slots[p]] && v1.maps == v.maps[p := v1.maps[p]];
    KeptOthers(v, p, v1);
    KeptOthers(v1, x, v2);
    KeptTwice(v, {p}, v1, {x}, v2);
    SlotKept(v2, p, r');
    KeptTwice(v, {p} + {x}, v2, {p}, v2.(slots := v2.slots[p := r']));
    assert {p} + {x} + {p} == {p, x};
  }

  /** Removes the entry, deletes the inode that it was the one link of, and writes the directory's inode. */
  method RemoveNamed(fs: FileSystem, p: int, parent: Inode, x: int, node: Inode, name: seq<byte>) returns (ok: bool)
    requires Whole(fs) && Tidy(fs.At(fs.table.slots)) && InodeNumValid(p) && InodeNumValid(x) && p != x
    requires parent != node && parent.Rec() == fs.table.slots[p] && node.Rec() == fs.table.slots[x]
    requires parent.isAllocated
    requires node.linkCount == 1 && node.isAllocated
    requires p in NamesOf(fs) && name in NamesOf(fs)[p]
    modifies fs`maps, fs`dirs, fs.disk, fs.disk.mem, fs.table, fs.table.rows, parent, node
    ensures ok && Whole(fs) && Tidy(fs.At(fs.table.slots))
    ensures NamesOf(fs) == NS.RemovedName(old(NamesOf(fs)), p, name) - {x}
    ensures fs.table.slots == old(fs.table.slots)[x := Erased(old(fs.table.slots)[x])][p := parent.Rec()]
    ensures parent.Rec() == old(parent.Rec()).(filesCount := old(parent.filesCount) - 1)
    ensures |old(fs.maps)| == INODE_BLOCK_COUNT && fs.maps == old(fs.maps)[x := EMPTY_MAP]
    ensures fs.leaked == old(fs.leaked)
    ensures multiset(fs.disk.live) + Owned(old(fs.maps)[x]) == multiset(old(fs.disk.live))
    ensures Kept(old(fs.At(fs.table.slots)), {p, x}, fs.At(fs.table.slots))
    ensures PlaceLeft(fs.dirs, p, name)
    ensures |old(fs.dirs)| == INODE_BLOCK_COUNT == |fs.dirs| && fs.dirs == old(fs.dirs)[p := fs.dirs[p]][x := []]
    ensures Dropped(old(fs.dirs)[p], name, fs.dirs[p])
    ensures Leads(old(fs.At(fs.table.slots)), fs.At(fs.table.slots))
  {
    hide Dropped, Leads, Sound, Tidy, CleanAt, Listed, Lists, TreeOf, OtherDataSame, EntryRemoved, Listing,
         Directories.Names, Owned, Kept, PlaceLeft, fs.disk.Valid, fs.table.Valid;
    ghost var slots, dirs, v := fs.table.slots, fs.dirs, fs.At(fs.table.slots);
    SlotMap(v, p);
    ListedSizes(v.store.img, slots, v.maps, dirs);
    InTree(slots, dirs, p);
    InodeAt(v, v.store.img, dirs, p);
    ok := RemoveFromDirectory(fs, p, parent, name, slots);
    if !ok {
      return;
    }
    ghost var s1, r', dir', v1 := fs.disk.Now(), parent.Rec(), fs.dirs[p], fs.At(slots);
    RemovedRecord(slots[p], dirs[p], name, r', dir');
    TidyMeansClean(v1, x);
    DropLink(fs, x, node);
    ghost var v2 := fs.At(fs.table.slots);
    KeptRemoved(v, p, x, v1, v2, r');
    PlaceStays(fs.dirs, p, name, x);
    fs.dirs := fs.dirs[x := []];
    EditedSound(v2, p, r');
    EditLeads(v2, p, r');
    LeadsFar(v, v1, v2);
    LeadsFar(v, v2, v2.(slots := v2.slots[p := r']));
    RemovedListed(v, dirs, p, x, name, s1, r', dir', v2.store);
    var _ := Save(fs, p, parent);
  }

  lemma PlaceStays(dirs: seq<Directory>, p: int, name: seq<byte>, x: int)
    requires PlaceLeft(dirs, p, name) && 0 <= x < |dirs| && x != p
    ensures PlaceLeft(dirs[x := []], p, name)
  {
  }

  lemma RemovedRecord(r: Record, dir: Directory, name: seq<byte>, r': Record, dir': Directory)
    requires EntryRemoved(r, dir, name, r', dir')
    ensures r' == r.(filesCount := r.filesCount - 1) && SameAddresses(r, r')
  {
  }

  lemma TidyMeansClean(v: Volume, n: int)
    requires Tidy(v) && InodeNumValid(n)
    ensures CleanAt(v, n)
  {
  }

  function IsEmptyDir(node: Record): bool {
    !(node.filesCount > 2)
  }

  /** The entry count is exact, so a directory counts as empty just when it holds `.` and `..` only. */
  lemma EmptyDirIsExact(v: Volume, dirs: seq<Directory>, x: int)
    requires Sound(v) && Listed(v.store.img, v.slots, v.maps, dirs) && InodeNumValid(x)
    ensures |dirs| == INODE_BLOCK_COUNT <= |v.slots|
    ensures x in TreeOf(v.slots, dirs) ==> v.slots[x].filesCount == |TreeOf(v.slots, dirs)[x]|
    ensures var tree := TreeOf(v.slots, dirs);
      x in tree && NS.DOT in tree[x] && NS.DOTDOT in tree[x] ==>
        (IsEmptyDir(v.slots[x]) <==> forall a :: a in tree[x] ==> NS.Special(a))
  {
    hide Listing, Directories.Names, Shown, Distinct;
    InodeAt(v, v.store.img, dirs, x);
    InTree(v.slots, dirs, x);
    if x in TreeOf(v.slots, dirs) {
      NamesAre(Listing(dirs[x]));
      DotsOnly(TreeOf(v.slots, dirs)[x]);
    }
  }

  lemma DotsOnly(names: Resolution.Names)
    ensures NS.DOT in names && NS.DOTDOT in names ==> (|names| <= 2 <==> forall a :: a in names ==> NS.Special(a))
  {
    if NS.DOT in names && NS.DOTDOT in names {
      if |names| <= 2 {
        NS.OnlySpecial(names);
      }
      if forall a :: a in names ==> NS.Special(a) {
        assert names.Keys <= {NS.DOT, NS.DOTDOT};
        NS.SubsetSize(names.Keys, {NS.DOT, NS.DOTDOT});
        assert |names.Keys| == |names|;
      }
    }
  }

  /** What can be removed: anything but the root and directories with entries of their own. */
  predicate CanUnlink(tree: Tree, root: int, x: int) {
    x != -1 && x != root && (x in tree ==> |tree[x]| <= 2)
  }

  /** What removing inode x answers: no such path, the root, a directory that has entries of its own, or success. */
  ghost function UnlinkCode(tree: Tree, root: int, x: int): int {
    if x == -1 then -ENOENT
    else if x == root then -EACCES
    else if exists a :: NS.Entry(tree, x, a) then -ENOTEMPTY
    else 0
  }

  lemma UnlinkCodeIs(tree: Tree, used: set<int>, root: int, x: int)
    requires NS.TreeShape(tree, used, root)
    ensures UnlinkCode(tree, root, x) == if x == -1 then -ENOENT else if x == root then -EACCES
      else if x in tree && |tree[x]| > 2 then -ENOTEMPTY else 0
    ensures UnlinkCode(tree, root, x) == 0 <==> CanUnlink(tree, root, x)
  {
    if x in tree {
      NS.HasDots(tree, used, root, x);
      DotsOnly(tree[x]);
    }
  }

  /** Where the inode of a path hangs. */
  lemma HangsFrom(slots: seq<Record>, tree: Tree, root: int, cs: seq<seq<byte>>)
    requires |slots| >= INODE_BLOCK_COUNT && NS.TreeShape(tree, Used(slots), root) && OneLinkEach(slots) && NS.Plain(cs)
    requires Walk(tree, root, cs) != -1 && Walk(tree, root, cs) != root
    ensures cs != []
    ensures var p, x, name := Walk(tree, root, cs[..|cs| - 1]), Walk(tree, root, cs), cs[|cs| - 1];
      && NS.Entry(tree, p, name) && tree[p][name] == x && p != x && p >= 0
      && InodeNumValid(p) && slots[p].isAllocated && InodeNumValid(x) && slots[x].isAllocated && slots[x].linkCount == 1
  {
    NS.RootIsNatural(tree, Used(slots), root);
    NS.PathEnds(tree, Used(slots), root, cs);
    var p, x, name := Walk(tree, root, cs[..|cs| - 1]), Walk(tree, root, cs), cs[|cs| - 1];
    NS.ParentOutside(tree, Used(slots), root, p, name);
    NS.InsideItself(tree, x);
    assert x in Used(slots) && p in Used(slots);
  }

  /** The table once inode x is erased and its directory p counts one entry less. */
  function WithoutEntry(slots: seq<Record>, p: int, x: int): seq<Record>
    requires InodeNumValid(p) && InodeNumValid(x) && INODE_BLOCK_COUNT <= |slots|
  {
    slots[x := Erased(slots[x])][p := slots[p].(filesCount := slots[p].filesCount - 1)]
  }

  /** The last name of the path is gone with its inode and the inode's blocks, and nothing else changed. */
  ghost predicate Unlinked(v: Volume, tree: Tree, root: int, cs: seq<seq<byte>>, v': Volume, tree': Tree) {
    && cs != [] && INODE_BLOCK_COUNT <= |v.slots| && INODE_BLOCK_COUNT <= |v'.slots|
    && var p, x, name := ParentOf(tree, root, cs), Walk(tree, root, cs), cs[|cs| - 1];
    && NS.Entry(tree, p, name) && InodeNumValid(p) && InodeNumValid(x)
    && tree' == NS.RemovedName(tree, p, name) - {x}
    && Used(v'.slots) == Used(v.slots) - {x}
    && |v.maps| == INODE_BLOCK_COUNT && v'.maps == v.maps[x := EMPTY_MAP] && v'.leaked == v.leaked
    && multiset(v'.store.live) + Owned(v.maps[x]) == multiset(v.store.live)
    && v'.slots == WithoutEntry(v.slots, p, x)
    && Kept(v, {p, x}, v')
  }

  lemma IsUnlinked(v: Volume, tree: Tree, root: int, cs: seq<seq<byte>>, p: int, x: int, v': Volume, tree': Tree)
    requires cs != [] && p == ParentOf(tree, root, cs) && x == Walk(tree, root, cs) && NS.Entry(tree, p, cs[|cs| - 1])
    requires InodeNumValid(p) && InodeNumValid(x) && INODE_BLOCK_COUNT <= |v.slots| <= |v'.slots|
    requires Used(v'.slots) == Used(v.slots) - {x}
    requires tree' == NS.RemovedName(tree, p, cs[|cs| - 1]) - {x}
    requires |v.maps| == INODE_BLOCK_COUNT && v'.maps == v.maps[x := EMPTY_MAP] && v'.leaked == v.leaked
    requires multiset(v'.store.live) + Owned(v.maps[x]) == multiset(v.store.live)
    requires v'.slots == WithoutEntry(v.slots, p, x) && Kept(v, {p, x}, v')
    ensures Unlinked(v, tree, root, cs, v', tree')
  {
    hide NS.Entry, NS.RemovedName, Walk, Used, Owned, Kept, ParentOf, WithoutEntry;
  }

  /** The records of directory p but the one with the name are where they were, and what was in x is gone. */
  ghost predicate EntryDropped(dirs: seq<Directory>, p: int, x: int, name: seq<byte>, dirs': seq<Directory>) {
    && 0 <= p < |dirs| == |dirs'| && 0 <= x < |dirs| && dirs' == dirs[p := dirs'[p]][x := []]
    && Dropped(dirs[p], name, dirs'[p])
  }

  /** Removes the last name of the path from its loaded parent, and the inode it leads to. */
  method UnlinkLast(fs: FileSystem, p: int, parent: Inode, x: int, node: Inode, name: seq<byte>,
                    ghost cs: seq<seq<byte>>) returns (ok: bool)
    requires Healthy(fs) && InodeNumValid(p) && InodeNumValid(x) && p != x && parent != node
    requires parent.Rec() == fs.table.slots[p] && node.Rec() == fs.table.slots[x]
    requires parent.isAllocated && node.isAllocated && node.linkCount == 1
    requires cs != [] && name == cs[|cs| - 1]
    requires p == ParentOf(NamesOf(fs), fs.root, cs) && x == Walk(NamesOf(fs), fs.root, cs)
    requires NS.Entry(NamesOf(fs), p, name) && NamesOf(fs)[p][name] == x
    requires x in NamesOf(fs) ==> |NamesOf(fs)[x]| <= 2
    modifies fs`maps, fs`dirs, fs.disk, fs.disk.mem, fs.table, fs.table.rows, parent, node
    ensures ok && Healthy(fs)
    ensures Unlinked(old(fs.At(fs.table.slots)), old(NamesOf(fs)), fs.root, cs, fs.At(fs.table.slots), NamesOf(fs))
    ensures PlaceLeft(fs.dirs, p, name)
    ensures EntryDropped(old(fs.dirs), p, x, name, fs.dirs)
    ensures Leads(old(fs.At(fs.table.slots)), fs.At(fs.table.slots))
  {
    hide Dropped, Leads, Sound, Tidy, Listed, TreeOf, Walk, ParentOf, Proper, NS.TreeShape, OneLinkEach, Used, Owned,
         Kept, NS.Entry, NS.RemovedName, Unlinked, PlaceLeft, fs.disk.Valid, fs.table.Valid;
    ghost var v := fs.At(fs.table.slots);
    ListedSizes(v.store.img, v.slots, fs.maps, fs.dirs);
    ghost var tree := NamesOf(fs);
    EntryParts(tree, p, name);
    ok := RemoveNamed(fs, p, parent, x, node, name);
    assert fs.table.slots == WithoutEntry(v.slots, p, x);
    UnlinkHealthy(v.slots, tree, fs.root, p, x, name, parent.Rec());
    ListedSizes(fs.disk.img, fs.table.slots, fs.maps, fs.dirs);
    IsUnlinked(v, tree, fs.root, cs, p, x, fs.At(fs.table.slots), NamesOf(fs));
  }

  method Unlink(fs: FileSystem, path: Path, ghost cs: seq<seq<byte>>) returns (code: int)
    requires Healthy(fs) && PlainPath(path, cs)
    modifies fs`maps, fs`dirs, fs.disk, fs.disk.mem, fs.table, fs.table.rows
    ensures Healthy(fs)
    ensures code == 0 <==> CanUnlink(old(NamesOf(fs)), fs.root, Walk(old(NamesOf(fs)), fs.root, cs))
    ensures code == -ENOENT <==> Walk(old(NamesOf(fs)), fs.root, cs) == -1
    ensures code == UnlinkCode(old(NamesOf(fs)), fs.root, Walk(old(NamesOf(fs)), fs.root, cs))
    ensures code != 0 ==> fs.At(fs.table.slots) == old(fs.At(fs.table.slots)) && fs.dirs == old(fs.dirs)
    ensures code == 0 ==>
      Unlinked(old(fs.At(fs.table.slots)), old(NamesOf(fs)), fs.root, cs, fs.At(fs.table.slots), NamesOf(fs))
      && cs != []
      && EntryDropped(old(fs.dirs), ParentOf(old(NamesOf(fs)), fs.root, cs),
                      Walk(old(NamesOf(fs)), fs.root, cs), cs[|cs| - 1], fs.dirs)
      && PlaceLeft(fs.dirs, ParentOf(old(NamesOf(fs)), fs.root, cs), cs[|cs| - 1])
    ensures code == 0 ==> Leads(old(fs.At(fs.table.slots)), fs.At(fs.table.slots))
  {
    hide EntryDropped, Leads, Sound, Tidy, Listed, TreeOf, Step, Walk, Proper, Resolve, FileName, ParentPath,
         NS.TreeShape, OneLinkEach, PlainPath, Used, Owned, Kept, NS.Entry, Unlinked, UnlinkCode, CanUnlink, PlaceLeft,
         fs.disk.Valid;
    ghost var slots, dirs := fs.table.slots, fs.dirs;
    ListedSizes(fs.disk.img, slots, fs.maps, dirs);
    ghost var tree := NamesOf(fs);
    NS.RootIsNatural(tree, Used(slots), fs.root);
    UnlinkCodeIs(tree, Used(slots), fs.root, Walk(tree, fs.root, cs));
    PathParts(tree, fs.root, path, cs);
    PathIsNotEmpty(path, cs);
    var inum := GetInodeOfFile(fs, path);
    if inum == -1 {
      return -ENOENT;
    }
    if inum == fs.root {
      return -EACCES;
    }
    HangsFrom(slots, tree, fs.root, cs);
    var childName := CopyFileName(path);
    var parentPath := CopyParentPath(path);
    var node := fs.table.LoadINode(inum);
    if node == null {
      return -EINVAL;
    }
    EmptyDirIsExact(fs.At(slots), dirs, inum);
    InTree(slots, dirs, inum);
    if node.isDir && !IsEmptyDir(node.Rec()) {
      return -ENOTEMPTY;
    }
    var parentInum := GetInodeOfFile(fs, parentPath);
    if parentInum == -1 {
      return -1;
    }
    var parent := fs.table.LoadINode(parentInum);
    if parent == null {
      return -ENOTEMPTY;
    }
    var ok := UnlinkLast(fs, parentInum, parent, inum, node, childName, cs);
    return if ok then 0 else -1;
  }

  lemma EntryParts(tree: Tree, p: int, name: seq<byte>)
    requires NS.Entry(tree, p, name)
    ensures p in tree && name in tree[p]
  {
  }

  lemma UnlinkHealthy(slots: seq<Record>, tree: Tree, root: int, p: int, x: int, name: seq<byte>, p': Record)
    requires |slots| >= INODE_BLOCK_COUNT && NS.TreeShape(tree, Used(slots), root) && OneLinkEach(slots) && Proper(tree)
    requires NS.Entry(tree, p, name) && tree[p][name] == x && p != x && InodeNumValid(p) && InodeNumValid(x)
    requires x in tree ==> |tree[x]| <= 2
    requires slots[p].isAllocated && p'.isAllocated && p'.linkCount == slots[p].linkCount
    ensures var tree', slots' := NS.RemovedName(tree, p, name) - {x}, slots[x := Erased(slots[x])][p := p'];
      && NS.TreeShape(tree', Used(slots'), root) && OneLinkEach(slots') && Proper(tree')
      && Used(slots') == Used(slots) - {x}
  {
    hide NS.TreeShape, OneLinkEach, Used, NS.RemovedName, Proper;
    NS.RemoveShape(tree, Used(slots), root, p, name, x);
    LinksOfRemoved(slots, p, x, p', tree);
    ProperRemoved(tree, p, name, x);
  }

  // ----- renaming -----

  lemma DroppedListed(v: Volume, dirs: seq<Directory>, p: int, name: seq<byte>, img': Image, r': Record,
                      dir': Directory)
    requires InodeNumValid(p) && Listed(v.store.img, v.slots, v.maps, dirs) && OtherDataSame(v, p, img')
    requires v.slots[p].isAllocated && v.slots[p].isDir && Lists(img', r', v.maps[p], dir')
    requires EntryRemoved(v.slots[p], dirs[p], name, r', dir')
    ensures Listed(img', v.slots[p := r'], v.maps, dirs[p := dir'])
    ensures p in TreeOf(v.slots, dirs)
    ensures TreeOf(v.slots[p := r'], dirs[p := dir']) == NS.RemovedName(TreeOf(v.slots, dirs), p, name)
  {
    hide OtherDataSame, Lists, TreeOf, Listing, Directories.Names;
    ListedReplaced(v, dirs, p, img', r', v.maps[p], dir');
    TreeReplaced(v.slots, dirs, p, r', dir');
    assert v.maps[p := v.maps[p]] == v.maps;
  }

  /** Removes an entry of a loaded directory and writes its inode back. */
  method DropName(fs: FileSystem, p: int, parent: Inode, name: seq<byte>) returns (ok: bool)
    requires Whole(fs) && InodeNumValid(p) && parent.Rec() == fs.table.slots[p] && parent.isAllocated
    requires p in NamesOf(fs) && name in NamesOf(fs)[p]
    modifies fs`dirs, fs.disk, fs.disk.mem, fs.table, fs.table.rows, parent
    ensures ok && Whole(fs) && NamesOf(fs) == NS.RemovedName(old(NamesOf(fs)), p, name)
    ensures fs.table.slots == old(fs.table.slots)[p := parent.Rec()]
    ensures parent.Rec() == old(parent.Rec()).(filesCount := old(parent.filesCount) - 1)
    ensures Kept(old(fs.At(fs.table.slots)), {p}, fs.At(fs.table.slots))
    ensures old(Tidy(fs.At(fs.table.slots))) ==> Tidy(fs.At(fs.table.slots))
    ensures Leads(old(fs.At(fs.table.slots)), fs.At(fs.table.slots))
  {
    hide Leads, Sound, Tidy, Listed, Lists, TreeOf, OtherDataSame, EntryRemoved, Listing, Directories.Names, Kept,
         fs.disk.Valid, fs.table.Valid;
    ghost var slots, dirs, v := fs.table.slots, fs.dirs, fs.At(fs.table.slots);
    SlotMap(v, p);
    ListedSizes(v.store.img, slots, v.maps, dirs);
    InTree(slots, dirs, p);
    InodeAt(v, v.store.img, dirs, p);
    ok := RemoveFromDirectory(fs, p, parent, name, slots);
    ghost var r' := parent.Rec();
    RemovedRecord(slots[p], dirs[p], name, r', fs.dirs[p]);
    DroppedListed(v, dirs, p, name, fs.disk.img, r', fs.dirs[p]);
    EditedSound(fs.At(slots), p, r');
    assert v.maps[p := v.maps[p]] == v.maps;
    KeptOthers(v, p, fs.At(slots[p := r']));
    EditLeads(fs.At(slots), p, r');
    LeadsFar(v, fs.At(slots), fs.At(slots[p := r']));
    ok := Save(fs, p, parent);
  }

  /** Whether a path leads anywhere. */
  method Access(fs: FileSystem, path: Path) returns (code: int)
    requires Whole(fs) && path != []
    ensures code == if Resolve(NamesOf(fs), fs.root, path) == -1 then -ENOENT else 0
  {
    var inum := GetInodeOfFile(fs, path);
    code := if inum == -1 then -ENOENT else 0;
  }

  /** The tree once whatever was under the target path has been removed. */
  ghost function TargetCleared(tree: Tree, root: int, tcs: seq<seq<byte>>): Tree
    requires tcs != []
  {
    var q, y, b := Walk(tree, root, tcs[..|tcs| - 1]), Walk(tree, root, tcs), tcs[|tcs| - 1];
    if y == -1 || q !in tree then tree else NS.RemovedName(tree, q, b) - {y}
  }

  /** Where source and target stand once the target path is free; if they are the same path, the source is gone. */
  ghost predicate ReadyToMove(tree: Tree, used: set<int>, root: int, fcs: seq<seq<byte>>, tcs: seq<seq<byte>>, x: int) {
    && NS.TreeShape(tree, used, root) && Proper(tree)
    && fcs != [] && tcs != [] && NS.Plain(fcs) && NS.Plain(tcs)
    && Walk(tree, root, fcs) == x && Walk(tree, root, tcs) == -1 && (x == -1 <==> fcs == tcs)
  }

  /** What can be removed has no entries that lead on, and its parent stays. */
  lemma ClearedParent(tree: Tree, used: set<int>, root: int, tcs: seq<seq<byte>>, tree1: Tree)
    requires NS.TreeShape(tree, used, root) && NS.Plain(tcs) && tcs != []
    requires CanUnlink(tree, root, Walk(tree, root, tcs))
    requires var q, y, b := ParentOf(tree, root, tcs), Walk(tree, root, tcs), tcs[|tcs| - 1];
      NS.Entry(tree, q, b) && tree1 == NS.RemovedName(tree, q, b) - {y}
    ensures var q, y, b := ParentOf(tree, root, tcs), Walk(tree, root, tcs), tcs[|tcs| - 1];
      && NS.OneMore(tree1, q, b, y, tree) && (forall c :: !NS.Entry(tree, y, c))
      && ParentOf(tree1, root, tcs) == q && q in tree1 && Step(tree1, q, b) == -1 && root != -1
  {
    hide NS.TreeShape, NS.Inside, NS.Plain;
    var q, y, b := ParentOf(tree, root, tcs), Walk(tree, root, tcs), tcs[|tcs| - 1];
    NS.RootIsNatural(tree, used, root);
    NS.PathEnds(tree, used, root, tcs);
    NS.ParentOutside(tree, used, root, q, b);
    NS.InsideItself(tree, y);
    NoEntries(tree, used, root, y);
    NS.RemovedIsLess(tree, q, b, y);
    NS.PlainPrefix(tcs);
    hide Walk, NS.OneMore;
    NS.WalkKept(tree, used, root, q, b, y, tree1, tcs[..|tcs| - 1]);
  }

  lemma ClearedTarget(tree: Tree, used: set<int>, root: int, fcs: seq<seq<byte>>, tcs: seq<seq<byte>>, tree1: Tree,
                      used1: set<int>)
    requires NS.TreeShape(tree, used, root) && NS.Plain(fcs) && NS.Plain(tcs) && fcs != [] && tcs != []
    requires Walk(tree, root, fcs) != -1 && CanUnlink(tree, root, Walk(tree, root, tcs))
    requires var q, y, b := ParentOf(tree, root, tcs), Walk(tree, root, tcs), tcs[|tcs| - 1];
      NS.Entry(tree, q, b) && tree1 == NS.RemovedName(tree, q, b) - {y}
    requires NS.TreeShape(tree1, used1, root) && Proper(tree1)
    ensures ReadyToMove(tree1, used1, root, fcs, tcs, if fcs == tcs then -1 else Walk(tree, root, fcs))
    ensures tree1 == TargetCleared(tree, root, tcs)
    ensures var q := ParentOf(tree, root, tcs); ParentOf(tree1, root, tcs) == q && q in tree1
  {
    hide NS.TreeShape, NS.OneMore, NS.Plain, NS.RemovedName, NS.Entry, Proper, Walk, Step, CanUnlink;
    var q, y, b := ParentOf(tree, root, tcs), Walk(tree, root, tcs), tcs[|tcs| - 1];
    ClearedParent(tree, used, root, tcs, tree1);
    NotNowhere(tree, root, tcs, q, b);
    if Walk(tree, root, fcs) == y {
      NS.OnePath(tree, used, root, fcs, tcs);
    }
    if fcs != tcs {
      NS.WalkKept(tree, used, root, q, b, y, tree1, fcs);
    }
    WalkLast(tree1, root, tcs);
  }

  lemma NotNowhere(tree: Tree, root: int, tcs: seq<seq<byte>>, q: int, b: seq<byte>)
    requires CanUnlink(tree, root, Walk(tree, root, tcs)) && NS.Entry(tree, q, b)
    ensures Walk(tree, root, tcs) != -1 && q in tree
  {
  }

  lemma NoEntries(tree: Tree, used: set<int>, root: int, y: int)
    requires NS.TreeShape(tree, used, root) && (y in tree ==> |tree[y]| <= 2)
    ensures forall b :: !NS.Entry(tree, y, b)
    ensures y in tree ==> forall b :: b in tree[y] ==> NS.Special(b)
  {
    if y in tree {
      NS.OnlySpecial(tree[y]);
    }
  }

  lemma MoveParts(tree: Tree, used: set<int>, root: int, fcs: seq<seq<byte>>, tcs: seq<seq<byte>>, x: int)
    requires ReadyToMove(tree, used, root, fcs, tcs, x) && x != -1 && Walk(tree, root, tcs[..|tcs| - 1]) in tree
    ensures var fp, fa := Walk(tree, root, fcs[..|fcs| - 1]), fcs[|fcs| - 1];
      var tp, ta := Walk(tree, root, tcs[..|tcs| - 1]), tcs[|tcs| - 1];
      && NS.Entry(tree, fp, fa) && tree[fp][fa] == x && ta !in tree[tp] && Step(tree, tp, ta) == -1
      && !NS.Special(fa) && !NS.Special(ta) && NS.Plain(fcs[..|fcs| - 1]) && NS.Plain(tcs[..|tcs| - 1])
      && (NS.Inside(tree, x, tp) <==> fcs <= tcs) && x in used && fp in used && tp in used && x >= 0
  {
    hide NS.TreeShape, NS.Inside, NS.Plain, NS.Special, Proper, Walk, Step;
    var m, n := |fcs| - 1, |tcs| - 1;
    NS.RootIsNatural(tree, used, root);
    NS.PathEnds(tree, used, root, fcs);
    NS.PlainPrefix(tcs);
    NS.PlainPrefix(fcs);
    InUse(tree, used, root);
    WalkLast(tree, root, tcs);
    StepAbsent(tree, Walk(tree, root, tcs[..n]), tcs[n]);
    NS.InsideIsPrefix(tree, used, root, fcs, tcs[..n]);
    PrefixOfParent(fcs, tcs);
  }

  lemma PrefixOfParent(a: seq<seq<byte>>, b: seq<seq<byte>>)
    requires b != [] && a != b
    ensures a <= b[..|b| - 1] <==> a <= b
  {
    if a <= b {
      assert |a| < |b|;
      assert a == b[..|a|] == b[..|b| - 1][..|a|];
    }
  }

  lemma InUse(tree: Tree, used: set<int>, root: int)
    requires NS.TreeShape(tree, used, root)
    ensures forall d :: d in tree ==> d in used
    ensures forall d, a :: NS.Entry(tree, d, a) ==> tree[d][a] in used && tree[d][a] >= 0
    ensures -1 !in tree
  {
  }

  /** After the new entry is made the source's parent is where it was. */
  lemma MoveHalfway(tree: Tree, root: int, fcs: seq<seq<byte>>, tp: int, ta: seq<byte>, x: int)
    requires fcs != [] && root != -1
    requires var fp, fa := Walk(tree, root, fcs[..|fcs| - 1]), fcs[|fcs| - 1];
      NS.Entry(tree, fp, fa) && tree[fp][fa] == x && fp != -1
    requires tp in tree && ta !in tree[tp]
    ensures var fp, fa := Walk(tree, root, fcs[..|fcs| - 1]), fcs[|fcs| - 1];
      var tree2 := NS.AddedName(tree, tp, ta, x);
      && fp in tree2 && fa in tree2[fp] && Walk(tree2, root, fcs[..|fcs| - 1]) == fp
      && fp in tree && fa in tree[fp] && NS.RemovedName(tree2, fp, fa) == NS.Renamed(tree, fp, fa, tp, ta)
  {
    hide Walk;
    NS.WalkMore(tree, root, tp, ta, x, fcs[..|fcs| - 1]);
  }

  /** What the second step finds. */
  lemma MoveContinues(tree: Tree, used: set<int>, root: int, fcs: seq<seq<byte>>, tcs: seq<seq<byte>>, x: int)
    requires ReadyToMove(tree, used, root, fcs, tcs, x) && Walk(tree, root, tcs[..|tcs| - 1]) in tree
    ensures var fp, fa := Walk(tree, root, fcs[..|fcs| - 1]), fcs[|fcs| - 1];
      var tp, ta := Walk(tree, root, tcs[..|tcs| - 1]), tcs[|tcs| - 1];
      && fp in tree && fp in used && fp != -1 && ta !in tree[tp]
      && fp in NS.AddedName(tree, tp, ta, x)
      && fa in NS.AddedName(tree, tp, ta, x)[fp] && Walk(NS.AddedName(tree, tp, ta, x), root, fcs[..|fcs| - 1]) == fp
      && (x != -1 ==>
            && fa in tree[fp] && tree[fp][fa] == x && x in used
            && NS.RemovedName(NS.AddedName(tree, tp, ta, x), fp, fa) == NS.Renamed(tree, fp, fa, tp, ta))
      && (x == -1 ==> NS.RemovedName(NS.AddedName(tree, tp, ta, x), fp, fa) == tree)
  {
    hide NS.Inside, NS.TreeShape, NS.Renamed, NS.Special, Walk, Step;
    var m, n := |fcs| - 1, |tcs| - 1;
    var fp, fa, tp, ta := Walk(tree, root, fcs[..m]), fcs[m], Walk(tree, root, tcs[..n]), tcs[n];
    NS.RootIsNatural(tree, used, root);
    if x != -1 {
      MoveParts(tree, used, root, fcs, tcs, x);
      ParentIsReal(tree, used, root, fp);
      MoveHalfway(tree, root, fcs, tp, ta, x);
    } else {
      InUse(tree, used, root);
      WalkLast(tree, root, tcs);
      StepAbsent(tree, tp, ta);
      NS.WalkMore(tree, root, tp, ta, x, fcs[..m]);
      AddedThenRemoved(tree, tp, ta, x);
    }
  }

  lemma AddedThenRemoved(tree: Tree, p: int, a: seq<byte>, x: int)
    requires p in tree && a !in tree[p]
    ensures NS.RemovedName(NS.AddedName(tree, p, a, x), p, a) == tree
  {
    assert tree[p][a := x] - {a} == tree[p];
  }

  /** Removing the old entry completes the move, or, when the target lies inside the source, cuts it off. */
  lemma MoveCompletes(tree: Tree, used: set<int>, root: int, fcs: seq<seq<byte>>, tcs: seq<seq<byte>>, x: int)
    requires ReadyToMove(tree, used, root, fcs, tcs, x) && x != -1 && Walk(tree, root, tcs[..|tcs| - 1]) in tree
    ensures var fp, fa := Walk(tree, root, fcs[..|fcs| - 1]), fcs[|fcs| - 1];
      var tp, ta := Walk(tree, root, tcs[..|tcs| - 1]), tcs[|tcs| - 1];
      fp in tree && fa in tree[fp]
      && var tree' := NS.Renamed(tree, fp, fa, tp, ta);
      && Walk(tree', root, fcs) == -1
      && (NS.TreeShape(tree', used, root) <==> !(fcs <= tcs))
      && (!(fcs <= tcs) ==> Proper(tree') && Walk(tree', root, tcs) == x)
      && (fcs <= tcs ==> Walk(tree', root, tcs) == -1)
  {
    hide NS.Inside, NS.TreeShape, NS.Renamed, NS.Special, Walk, Step;
    var m, n := |fcs| - 1, |tcs| - 1;
    var fp, fa, tp, ta := Walk(tree, root, fcs[..m]), fcs[m], Walk(tree, root, tcs[..n]), tcs[n];
    MoveParts(tree, used, root, fcs, tcs, x);
    NS.RootIsNatural(tree, used, root);
    ParentIsReal(tree, used, root, fp);
    MoveHalfway(tree, root, fcs, tp, ta, x);
    ProperFile(tree, tp, ta, x);
    ProperLess(NS.AddedName(tree, tp, ta, x), fp, fa);
    hide Proper, NS.RemovedName;
    assert fcs == fcs[..m] + [fa] && tcs == tcs[..n] + [ta];
    if fcs <= tcs {
      assert tcs == fcs + tcs[|fcs|..];
      NS.RenameDetaches(tree, used, root, fcs[..m], fa, tp, ta, tcs[|fcs|..]);
    } else {
      NS.RenameShape(tree, used, root, fp, fa, tp, ta);
      NS.RenameResolves(tree, used, root, fcs[..m], fa, tcs[..n], ta);
    }
  }

  lemma ParentIsReal(tree: Tree, used: set<int>, root: int, p: int)
    requires NS.TreeShape(tree, used, root) && p in used
    ensures p != -1
  {
  }

  lemma ProperLess(tree: Tree, p: int, name: seq<byte>)
    requires Proper(tree) && p in tree
    ensures Proper(NS.RemovedName(tree, p, name))
  {
  }

  lemma LinksKept(slots: seq<Record>, p: int, p': Record)
    requires OneLinkEach(slots) && InodeNumValid(p) && |slots| >= INODE_BLOCK_COUNT
    requires slots[p].isAllocated && p'.isAllocated && p'.linkCount == slots[p].linkCount
    ensures OneLinkEach(slots[p := p']) && Used(slots[p := p']) == Used(slots)
  {
    UsedReplaced(slots, p, p');
  }

  lemma UsedIs(slots: seq<Record>, n: int)
    requires |slots| >= INODE_BLOCK_COUNT && n in Used(slots)
    ensures InodeNumValid(n) && slots[n].isAllocated
  {
  }

  lemma KeptMore(v: Volume, touched: set<int>)
    requires |v.maps| == INODE_BLOCK_COUNT <= |v.slots|
    ensures Kept(v, touched, v)
  {
    NothingMoved(v);
    hide DataSame;
  }

  lemma RootWalks(tree: Tree, root: int, cs: seq<seq<byte>>)
    ensures cs == [] ==> Walk(tree, root, cs) == root && !CanUnlink(tree, root, root)
  {
  }

  /** The table once whatever was under the target path has been removed. */
  ghost function RecordsCleared(slots: seq<Record>, tree: Tree, root: int, tcs: seq<seq<byte>>): seq<Record>
    requires tcs != []
  {
    var q, y := ParentOf(tree, root, tcs), Walk(tree, root, tcs);
    if InodeNumValid(q) && InodeNumValid(y) && INODE_BLOCK_COUNT <= |slots| then WithoutEntry(slots, q, y) else slots
  }

  lemma NothingCleared(slots: seq<Record>, tree: Tree, root: int, tcs: seq<seq<byte>>)
    ensures tcs != [] && Walk(tree, root, tcs) == -1 ==> RecordsCleared(slots, tree, root, tcs) == slots
  {
  }

  lemma AreCleared(slots: seq<Record>, tree: Tree, root: int, tcs: seq<seq<byte>>)
    requires tcs != [] && InodeNumValid(ParentOf(tree, root, tcs)) && InodeNumValid(Walk(tree, root, tcs))
    requires INODE_BLOCK_COUNT <= |slots|
    ensures RecordsCleared(slots, tree, root, tcs)
      == WithoutEntry(slots, ParentOf(tree, root, tcs), Walk(tree, root, tcs))
  {
    hide Walk;
  }

  /** Removes whatever is under the target path. */
  method ClearTarget(fs: FileSystem, to: Path, ghost fcs: seq<seq<byte>>, ghost tcs: seq<seq<byte>>) returns (code: int)
    requires Healthy(fs) && PlainPath(to, tcs) && NS.Plain(fcs) && fcs != []
    requires Walk(NamesOf(fs), fs.root, fcs) != -1
    modifies fs`maps, fs`dirs, fs.disk, fs.disk.mem, fs.table, fs.table.rows
    ensures Healthy(fs)
    ensures code == 0 ==>
      && tcs != [] && NamesOf(fs) == TargetCleared(old(NamesOf(fs)), fs.root, tcs)
      && Kept(old(fs.At(fs.table.slots)),
              {ParentOf(old(NamesOf(fs)), fs.root, tcs), Walk(old(NamesOf(fs)), fs.root, tcs)}, fs.At(fs.table.slots))
      && ReadyToMove(NamesOf(fs), Used(fs.table.slots), fs.root, fcs, tcs,
                     if fcs == tcs then -1 else Walk(old(NamesOf(fs)), fs.root, fcs))
    ensures code != 0 || Walk(old(NamesOf(fs)), fs.root, tcs) == -1 ==>
      fs.At(fs.table.slots) == old(fs.At(fs.table.slots)) && fs.dirs == old(fs.dirs)
    ensures code == 0 && Walk(old(NamesOf(fs)), fs.root, tcs) != -1 ==>
      var p := ParentOf(NamesOf(fs), fs.root, tcs); p in NamesOf(fs) && PlaceLeft(fs.dirs, p, tcs[|tcs| - 1])
    ensures var y := Walk(old(NamesOf(fs)), fs.root, tcs);
      && (code == 0 <==> y == -1 || CanUnlink(old(NamesOf(fs)), fs.root, y))
      && code == if y == -1 then 0 else UnlinkCode(old(NamesOf(fs)), fs.root, y)
    ensures code == 0 ==>
      && tcs != []
      && fs.table.slots == RecordsCleared(old(fs.table.slots), old(NamesOf(fs)), fs.root, tcs)
      && fs.leaked == old(fs.leaked)
    ensures code == 0 ==> Leads(old(fs.At(fs.table.slots)), fs.At(fs.table.slots))
  {
    hide RecordsCleared, Leads, Sound, Tidy, Listed, TreeOf, Step, Walk, Proper, Resolve, NS.TreeShape, OneLinkEach,
         PlainPath, Used, Owned, Kept, NS.Entry, PlaceLeft;
    ListedSizes(fs.disk.img, fs.table.slots, fs.maps, fs.dirs);
    ghost var tree := NamesOf(fs);
    NS.RootIsNatural(tree, Used(fs.table.slots), fs.root);
    PathParts(tree, fs.root, to, tcs);
    PathIsNotEmpty(to, tcs);
    PlainOf(to, tcs);
    var accessed := Access(fs, to);
    if tcs != [] {
      KeptMore(fs.At(fs.table.slots), {Walk(tree, fs.root, tcs[..|tcs| - 1]), Walk(tree, fs.root, tcs)});
    }
    RootWalks(tree, fs.root, tcs);
    ghost var slots := fs.table.slots;
    NothingCleared(slots, tree, fs.root, tcs);
    TableSize(fs);
    LeadsNowhere(fs.At(fs.table.slots));
    code := 0;
    if accessed == 0 {
      ghost var used := Used(fs.table.slots);
      code := Unlink(fs, to, tcs);
      ListedSizes(fs.disk.img, fs.table.slots, fs.maps, fs.dirs);
      if code == 0 {
        AreCleared(slots, tree, fs.root, tcs);
        ClearedTarget(tree, used, fs.root, fcs, tcs, NamesOf(fs), Used(fs.table.slots));
      }
    }
  }

  lemma PlainOf(path: Path, cs: seq<seq<byte>>)
    requires PlainPath(path, cs)
    ensures NS.Plain(cs) && Spells(path, cs)
  {
  }

  /** An entry with the name can be added to directory p. */
  ghost predicate CanHold(v: Volume, dirs: seq<Directory>, tree: Tree, p: int, name: seq<byte>) {
    p in tree && NameOk(name) && SpaceFor(v, dirs, p, name)
  }

  /** What adding the entry answers: -1 if p is no directory, -EDQUOT if it cannot hold the name. */
  ghost function EnterCode(v: Volume, dirs: seq<Directory>, tree: Tree, p: int, name: seq<byte>): int {
    if p !in tree then -1 else if CanHold(v, dirs, tree, p, name) then 0 else -EDQUOT
  }

  /** What a failed entry in directory p has leaked. */
  ghost predicate EnteredInVain(v: Volume, p: int, v': Volume) {
    0 <= p < |v.maps| && Wasted(v, |v.maps[p].Data()|, v')
  }

  /** The records of the two directories after a move: one entry more in tp, then one less in fp. */
  ghost predicate MovedRecords(slots: seq<Record>, tp: int, fp: int, slots': seq<Record>) {
    && InodeNumValid(tp) && InodeNumValid(fp) && INODE_BLOCK_COUNT <= |slots|
    && exists r :: CountedOne(slots[tp], r) && slots' == OneEntryLess(slots[tp := r], fp)
  }

  function OneEntryLess(slots: seq<Record>, p: int): seq<Record>
    requires 0 <= p < |slots|
  {
    slots[p := slots[p].(filesCount := slots[p].filesCount - 1)]
  }

  /** Adding the entry fails, if it fails, after some of the spare blocks have been taken. */
  ghost predicate ShortOfSpace(live: set<int>, tree: Tree, p: int, name: seq<byte>) {
    p in tree && NameOk(name) && Spare(live) > 0
  }

  /** Adds the target's entry for inode x to its parent directory. */
  method EnterTarget(fs: FileSystem, to: Path, x: int, ghost tcs: seq<seq<byte>>) returns (code: int)
    requires Whole(fs) && PlainPath(to, tcs) && tcs != [] && fs.root >= 0 && Proper(NamesOf(fs)) && IsInt64(x)
    requires var tp := Walk(NamesOf(fs), fs.root, tcs[..|tcs| - 1]); Step(NamesOf(fs), tp, tcs[|tcs| - 1]) == -1
    modifies fs`maps, fs`leaked, fs`dirs, fs.disk, fs.disk.mem, fs.table, fs.table.rows
    ensures Whole(fs)
    ensures code == 0 ==>
      && var tp := Walk(old(NamesOf(fs)), fs.root, tcs[..|tcs| - 1]);
      && tp in old(NamesOf(fs)) && NamesOf(fs) == NS.AddedName(old(NamesOf(fs)), tp, tcs[|tcs| - 1], x)
      && InodeNumValid(tp) && old(fs.table.slots)[tp].isAllocated
      && fs.table.slots == old(fs.table.slots)[tp := fs.table.slots[tp]] && fs.leaked == old(fs.leaked)
      && fs.table.slots[tp].isAllocated && CountedOne(old(fs.table.slots)[tp], fs.table.slots[tp])
      && Kept(old(fs.At(fs.table.slots)), {tp}, fs.At(fs.table.slots))
    ensures code == 0 <==>
      CanHold(old(fs.At(fs.table.slots)), old(fs.dirs), old(NamesOf(fs)), ParentOf(old(NamesOf(fs)), fs.root, tcs),
              tcs[|tcs| - 1])
    ensures code == EnterCode(old(fs.At(fs.table.slots)), old(fs.dirs), old(NamesOf(fs)),
                              ParentOf(old(NamesOf(fs)), fs.root, tcs), tcs[|tcs| - 1])
    ensures code != 0 ==>
      && fs.table.slots == old(fs.table.slots) && fs.dirs == old(fs.dirs) && fs.maps == old(fs.maps)
      && Kept(old(fs.At(fs.table.slots)), {}, fs.At(fs.table.slots))
    ensures code != 0 && !ShortOfSpace(old(fs.disk.live), old(NamesOf(fs)), ParentOf(old(NamesOf(fs)), fs.root, tcs),
                                       tcs[|tcs| - 1]) ==>
      fs.At(fs.table.slots) == old(fs.At(fs.table.slots))
    ensures code != 0 && ParentOf(old(NamesOf(fs)), fs.root, tcs) in old(NamesOf(fs)) && NameOk(tcs[|tcs| - 1]) ==>
      EnteredInVain(old(fs.At(fs.table.slots)), ParentOf(old(NamesOf(fs)), fs.root, tcs), fs.At(fs.table.slots))
    ensures code == 0 && old(Tidy(fs.At(fs.table.slots))) ==> Tidy(fs.At(fs.table.slots))
    ensures code == 0 ==> Leads(old(fs.At(fs.table.slots)), fs.At(fs.table.slots))
  {
    hide Wasted, Leads, Sound, Tidy, Listed, TreeOf, Step, Walk, Proper, Resolve, FileName, ParentPath, PlainPath,
         RoomForEntry, EntryTakes, NameOk, Kept, Spare, fs.disk.Valid;
    ListedSizes(fs.disk.img, fs.table.slots, fs.maps, fs.dirs);
    PathParts(NamesOf(fs), fs.root, to, tcs);
    PathIsNotEmpty(to, tcs);
    NothingMoved(fs.At(fs.table.slots));
    KeptAll(fs.At(fs.table.slots), fs.At(fs.table.slots));
    var toParentPath := CopyParentPath(to);
    var tp := GetInodeOfFile(fs, toParentPath);
    InTree(fs.table.slots, fs.dirs, tp);
    if tp == -1 {
      return -1;
    }
    var toParent := fs.table.LoadINode(tp);
    if toParent == null {
      return -1;
    }
    if !toParent.isDir {
      return -1;
    }
    NameHasNoNul(to);
    var toChildName := CopyFileName(to);
    var ok := EnterName(fs, tp, toParent, x, toChildName);
    code := if ok then 0 else -EDQUOT;
  }

  /** Removes the source's entry from its parent directory. */
  method DropSource(fs: FileSystem, from: Path, ghost fcs: seq<seq<byte>>) returns (code: int)
    requires Whole(fs) && PlainPath(from, fcs) && fcs != [] && fs.root >= 0
    requires var fp := Walk(NamesOf(fs), fs.root, fcs[..|fcs| - 1]);
      fp != -1 && fp in NamesOf(fs) && fcs[|fcs| - 1] in NamesOf(fs)[fp]
    modifies fs`dirs, fs.disk, fs.disk.mem, fs.table, fs.table.rows
    ensures code == 0 && Whole(fs)
    ensures
      && var fp := Walk(old(NamesOf(fs)), fs.root, fcs[..|fcs| - 1]);
      && NamesOf(fs) == NS.RemovedName(old(NamesOf(fs)), fp, fcs[|fcs| - 1])
      && InodeNumValid(fp) && old(fs.table.slots)[fp].isAllocated
      && fs.table.slots == old(fs.table.slots)[fp := fs.table.slots[fp]]
      && fs.table.slots[fp] == old(fs.table.slots)[fp].(filesCount := old(fs.table.slots)[fp].filesCount - 1)
      && Kept(old(fs.At(fs.table.slots)), {fp}, fs.At(fs.table.slots))
    ensures old(Tidy(fs.At(fs.table.slots))) ==> Tidy(fs.At(fs.table.slots))
    ensures Leads(old(fs.At(fs.table.slots)), fs.At(fs.table.slots))
  {
    hide Leads, Sound, Tidy, Listed, TreeOf, Step, Walk, Proper, Resolve, FileName, ParentPath, PlainPath, Kept,
         fs.disk.Valid;
    ListedSizes(fs.disk.img, fs.table.slots, fs.maps, fs.dirs);
    PathParts(NamesOf(fs), fs.root, from, fcs);
    PathIsNotEmpty(from, fcs);
    var fromParentPath := CopyParentPath(from);
    var fp := GetInodeOfFile(fs, fromParentPath);
    InTree(fs.table.slots, fs.dirs, fp);
    if fp == -1 {
      return -1;
    }
    var fromParent := fs.table.LoadINode(fp);
    if fromParent == null {
      return -1;
    }
    var fromChildName := CopyFileName(from);
    var ok := DropName(fs, fp, fromParent, fromChildName);
    code := if ok then 0 else -1;
  }

  /** When a rename succeeds, by the state before the call. */
  ghost predicate CanRename(v: Volume, dirs: seq<Directory>, tree: Tree, root: int, fcs: seq<seq<byte>>,
                            tcs: seq<seq<byte>>) {
    && Walk(tree, root, fcs) != -1
    && if Walk(tree, root, tcs) != -1 then CanUnlink(tree, root, Walk(tree, root, tcs))
       else tcs != [] && CanHold(v, dirs, tree, ParentOf(tree, root, tcs), tcs[|tcs| - 1])
  }

  /**
   * What it answers: -ENOENT without a source, what unlinking answers for a target that is there, and for one that is
   * not, what adding its entry answers.
   */
  ghost function RenameCode(v: Volume, dirs: seq<Directory>, tree: Tree, root: int, fcs: seq<seq<byte>>,
                            tcs: seq<seq<byte>>): int {
    if Walk(tree, root, fcs) == -1 then -ENOENT
    else if Walk(tree, root, tcs) != -1 then UnlinkCode(tree, root, Walk(tree, root, tcs))
    else if tcs == [] then -1
    else EnterCode(v, dirs, tree, ParentOf(tree, root, tcs), tcs[|tcs| - 1])
  }

  /** The rename fails, if it fails, for want of space, after some of the spare blocks have been taken. */
  ghost predicate RunsOut(live: set<int>, tree: Tree, root: int, fcs: seq<seq<byte>>, tcs: seq<seq<byte>>) {
    && Walk(tree, root, fcs) != -1 && Walk(tree, root, tcs) == -1
    && tcs != [] && ShortOfSpace(live, tree, ParentOf(tree, root, tcs), tcs[|tcs| - 1])
  }

  /** A removed target leaves room for its name. */
  lemma PlaceHolds(v: Volume, dirs: seq<Directory>, tree: Tree, p: int, name: seq<byte>)
    requires p in tree && PlaceLeft(dirs, p, name) && |dirs| <= |v.maps|
    ensures CanHold(v, dirs, tree, p, name)
  {
    hide HasSlack, NameOk;
  }

  /**
   * Moves what is under `from` to `to`. It succeeds if and only if the source exists and the target either can be
   * removed or can be entered in its parent; what a removed target leaves is room enough. If `to` is not `from` and not
   * inside it, the target path then leads to the source's inode, the source path leads nowhere, and the tree is a tree.
   * Moving a path onto itself removes what is there, and moving it into itself cuts it off from the root; both report
   * success.
   */
  method Rename(fs: FileSystem, from: Path, to: Path, ghost fcs: seq<seq<byte>>,
                ghost tcs: seq<seq<byte>>) returns (code: int)
    requires Healthy(fs) && PlainPath(from, fcs) && PlainPath(to, tcs) && fcs != []
    modifies fs`maps, fs`leaked, fs`dirs, fs.disk, fs.disk.mem, fs.table, fs.table.rows
    ensures Whole(fs)
    ensures code ==
      RenameCode(old(fs.At(fs.table.slots)), old(fs.dirs), old(NamesOf(fs)), fs.root, fcs, tcs)
    ensures code == 0 <==>
      CanRename(old(fs.At(fs.table.slots)), old(fs.dirs), old(NamesOf(fs)), fs.root, fcs, tcs)
    ensures code != 0 ==>
      && fs.table.slots == old(fs.table.slots) && fs.dirs == old(fs.dirs) && fs.maps == old(fs.maps)
      && Kept(old(fs.At(fs.table.slots)), {}, fs.At(fs.table.slots))
    ensures code != 0 && !RunsOut(old(fs.disk.live), old(NamesOf(fs)), fs.root, fcs, tcs) ==>
      Healthy(fs) && fs.At(fs.table.slots) == old(fs.At(fs.table.slots))
    ensures RunsOut(old(fs.disk.live), old(NamesOf(fs)), fs.root, fcs, tcs) && code != 0 ==>
      EnteredInVain(old(fs.At(fs.table.slots)), ParentOf(old(NamesOf(fs)), fs.root, tcs), fs.At(fs.table.slots))
    ensures code == 0 ==> tcs != []
    ensures code == 0 ==>
      var tree := TargetCleared(old(NamesOf(fs)), fs.root, tcs);
      MovedRecords(RecordsCleared(old(fs.table.slots), old(NamesOf(fs)), fs.root, tcs),
                   ParentOf(tree, fs.root, tcs), ParentOf(tree, fs.root, fcs), fs.table.slots)
    ensures code == 0 ==> fs.leaked == old(fs.leaked)
    ensures code == 0 && fcs == tcs ==>
      && Healthy(fs) && NamesOf(fs) == TargetCleared(old(NamesOf(fs)), fs.root, tcs)
      && Walk(NamesOf(fs), fs.root, fcs) == -1
    ensures code == 0 && fcs != tcs ==>
      && (Healthy(fs) <==> !(fcs <= tcs))
      && Walk(NamesOf(fs), fs.root, tcs) == (if fcs <= tcs then -1 else Walk(old(NamesOf(fs)), fs.root, fcs))
      && Walk(NamesOf(fs), fs.root, fcs) == -1
      && var tree := TargetCleared(old(NamesOf(fs)), fs.root, tcs);
      var fp, tp := Walk(tree, fs.root, fcs[..|fcs| - 1]), Walk(tree, fs.root, tcs[..|tcs| - 1]);
      && fp in tree && fcs[|fcs| - 1] in tree[fp] && tp in tree
      && NamesOf(fs) == NS.Renamed(tree, fp, fcs[|fcs| - 1], tp, tcs[|tcs| - 1])
    ensures code == 0 ==>
      var tree := TargetCleared(old(NamesOf(fs)), fs.root, tcs);
      var fp, tp := Walk(tree, fs.root, fcs[..|fcs| - 1]), Walk(tree, fs.root, tcs[..|tcs| - 1]);
      Kept(old(fs.At(fs.table.slots)),
           {ParentOf(old(NamesOf(fs)), fs.root, tcs), Walk(old(NamesOf(fs)), fs.root, tcs), tp, fp},
           fs.At(fs.table.slots))
    ensures code == 0 ==> Leads(old(fs.At(fs.table.slots)), fs.At(fs.table.slots))
  {
    hide EnteredInVain, MovedRecords, RecordsCleared, Leads, Sound, Tidy, Listed, TreeOf, Step, Walk, Proper, Resolve,
         FileName, ParentPath, PlainPath, NS.TreeShape, OneLinkEach, Used, NS.Renamed, CanUnlink, CanHold, UnlinkCode,
         SpaceFor, PlaceLeft, Kept, TargetCleared, ReadyToMove, fs.disk.Valid, fs.table.Valid;
    ListedSizes(fs.disk.img, fs.table.slots, fs.maps, fs.dirs);
    ghost var tree0, v0 := NamesOf(fs), fs.At(fs.table.slots);
    KeptMore(v0, {});
    NS.RootIsNatural(tree0, Used(fs.table.slots), fs.root);
    PathParts(tree0, fs.root, from, fcs);
    PathIsNotEmpty(from, fcs);
    PlainOf(from, fcs);
    PlainOf(to, tcs);
    code := Access(fs, from);
    if code != 0 {
      return -ENOENT;
    }
    UnlinkCodeIs(tree0, Used(fs.table.slots), fs.root, Walk(tree0, fs.root, tcs));
    code := ClearTarget(fs, to, fcs, tcs);
    if code != 0 {
      return;
    }
    ListedSizes(fs.disk.img, fs.table.slots, fs.maps, fs.dirs);
    ghost var tree, used, v1 := NamesOf(fs), Used(fs.table.slots), fs.At(fs.table.slots);
    PathParts(tree, fs.root, from, fcs);
    ReadySource(tree, used, fs.root, fcs, tcs, if fcs == tcs then -1 else Walk(tree0, fs.root, fcs));
    if Walk(tree0, fs.root, tcs) != -1 {
      PlaceHolds(v1, fs.dirs, tree, ParentOf(tree, fs.root, tcs), tcs[|tcs| - 1]);
    }
    var inum := GetInodeOfFile(fs, from);
    code := MoveEntry(fs, from, to, inum, fcs, tcs);
    if code == 0 {
      ghost var q, y := ParentOf(tree0, fs.root, tcs), Walk(tree0, fs.root, tcs);
      ghost var tp, fp := Walk(tree, fs.root, tcs[..|tcs| - 1]), Walk(tree, fs.root, fcs[..|fcs| - 1]);
      KeptTwice(v0, {q, y}, v1, {tp, fp}, fs.At(fs.table.slots));
      LeadsFar(v0, v1, fs.At(fs.table.slots));
      assert {q, y} + {tp, fp} == {q, y, tp, fp};
    }
  }

  lemma ReadySource(tree: Tree, used: set<int>, root: int, fcs: seq<seq<byte>>, tcs: seq<seq<byte>>, x: int)
    requires ReadyToMove(tree, used, root, fcs, tcs, x)
    ensures Walk(tree, root, fcs) == x && tcs != [] && (x == -1 <==> fcs == tcs)
  {
  }

  /** The two steps of the move proper. */
  method MoveEntry(fs: FileSystem, from: Path, to: Path, x: int, ghost fcs: seq<seq<byte>>,
                   ghost tcs: seq<seq<byte>>) returns (code: int)
    requires Healthy(fs) && PlainPath(from, fcs) && PlainPath(to, tcs)
    requires ReadyToMove(NamesOf(fs), Used(fs.table.slots), fs.root, fcs, tcs, x)
    modifies fs`maps, fs`leaked, fs`dirs, fs.disk, fs.disk.mem, fs.table, fs.table.rows
    ensures Whole(fs) && fcs != [] && tcs != []
    ensures code == 0 <==>
      CanHold(old(fs.At(fs.table.slots)), old(fs.dirs), old(NamesOf(fs)), ParentOf(old(NamesOf(fs)), fs.root, tcs),
              tcs[|tcs| - 1])
    ensures code == EnterCode(old(fs.At(fs.table.slots)), old(fs.dirs), old(NamesOf(fs)),
                              ParentOf(old(NamesOf(fs)), fs.root, tcs), tcs[|tcs| - 1])
    ensures code != 0 ==>
      && fs.table.slots == old(fs.table.slots) && fs.dirs == old(fs.dirs) && fs.maps == old(fs.maps)
      && Kept(old(fs.At(fs.table.slots)), {}, fs.At(fs.table.slots))
    ensures code != 0 && !ShortOfSpace(old(fs.disk.live), old(NamesOf(fs)), ParentOf(old(NamesOf(fs)), fs.root, tcs),
                                       tcs[|tcs| - 1]) ==>
      Healthy(fs) && fs.At(fs.table.slots) == old(fs.At(fs.table.slots))
    ensures code == 0 && x == -1 ==>
      Healthy(fs) && NamesOf(fs) == old(NamesOf(fs)) && Walk(NamesOf(fs), fs.root, fcs) == -1
    ensures code == 0 && x != -1 ==>
      && (Healthy(fs) <==> !(fcs <= tcs))
      && Walk(NamesOf(fs), fs.root, tcs) == (if fcs <= tcs then -1 else x) && Walk(NamesOf(fs), fs.root, fcs) == -1
      && var tree := old(NamesOf(fs));
      var fp, tp := Walk(tree, fs.root, fcs[..|fcs| - 1]), Walk(tree, fs.root, tcs[..|tcs| - 1]);
      && fp in tree && fcs[|fcs| - 1] in tree[fp] && tp in tree
      && NamesOf(fs) == NS.Renamed(tree, fp, fcs[|fcs| - 1], tp, tcs[|tcs| - 1])
    ensures code == 0 ==>
      var tree := old(NamesOf(fs));
      var fp, tp := Walk(tree, fs.root, fcs[..|fcs| - 1]), Walk(tree, fs.root, tcs[..|tcs| - 1]);
      Kept(old(fs.At(fs.table.slots)), {tp, fp}, fs.At(fs.table.slots))
    ensures code != 0 && ParentOf(old(NamesOf(fs)), fs.root, tcs) in old(NamesOf(fs)) && NameOk(tcs[|tcs| - 1]) ==>
      EnteredInVain(old(fs.At(fs.table.slots)), ParentOf(old(NamesOf(fs)), fs.root, tcs), fs.At(fs.table.slots))
    ensures code == 0 ==> fs.leaked == old(fs.leaked)
    ensures code == 0 ==>
      MovedRecords(old(fs.table.slots), ParentOf(old(NamesOf(fs)), fs.root, tcs),
                   ParentOf(old(NamesOf(fs)), fs.root, fcs), fs.table.slots)
    ensures code == 0 ==> Leads(old(fs.At(fs.table.slots)), fs.At(fs.table.slots))
  {
    hide EnteredInVain, MovedRecords, CountedOne, NameOk, Leads, Sound, Tidy, Listed, TreeOf, Step, Walk, Proper,
         PlainPath, NS.TreeShape, NS.Plain, OneLinkEach, Used, NS.Renamed, NS.AddedName, NS.RemovedName, CanHold,
         EnterCode, ShortOfSpace, Kept, fs.disk.Valid, fs.table.Valid;
    ListedSizes(fs.disk.img, fs.table.slots, fs.maps, fs.dirs);
    TableSize(fs);
    ghost var tree, slots, used := NamesOf(fs), fs.table.slots, Used(fs.table.slots);
    ghost var v := fs.At(slots);
    NS.RootIsNatural(tree, used, fs.root);
    TargetFree(tree, used, fs.root, fcs, tcs, x);
    MovedFits(slots, x);
    code := EnterTarget(fs, to, x, tcs);
    if code != 0 {
      return;
    }
    ListedSizes(fs.disk.img, fs.table.slots, fs.maps, fs.dirs);
    TableSize(fs);
    ghost var tp, fp := Walk(tree, fs.root, tcs[..|tcs| - 1]), Walk(tree, fs.root, fcs[..|fcs| - 1]);
    ghost var slots1, v1 := fs.table.slots, fs.At(fs.table.slots);
    CountedLinks(slots[tp], slots1[tp]);
    LinksKept(slots, tp, slots1[tp]);
    MoveContinues(tree, used, fs.root, fcs, tcs, x);
    code := DropSource(fs, from, fcs);
    LinksKept(slots1, fp, fs.table.slots[fp]);
    AreMovedRecords(slots, tp, fp, slots1, fs.table.slots);
    KeptTwice(v, {tp}, v1, {fp}, fs.At(fs.table.slots));
    LeadsFar(v, v1, fs.At(fs.table.slots));
    assert {tp} + {fp} == {tp, fp};
    if x != -1 {
      MoveCompletes(tree, used, fs.root, fcs, tcs, x);
    }
  }

  lemma CountedLinks(r: Record, r': Record)
    requires CountedOne(r, r')
    ensures r'.linkCount == r.linkCount
  {
  }

  lemma AreMovedRecords(slots: seq<Record>, tp: int, fp: int, slots1: seq<Record>, slots2: seq<Record>)
    requires InodeNumValid(tp) && InodeNumValid(fp) && INODE_BLOCK_COUNT <= |slots|
    requires |slots1| == |slots| && CountedOne(slots[tp], slots1[tp]) && slots1 == slots[tp := slots1[tp]]
    requires |slots2| == |slots| && slots2 == slots1[fp := slots2[fp]]
    requires slots2[fp] == slots1[fp].(filesCount := slots1[fp].filesCount - 1)
    ensures MovedRecords(slots, tp, fp, slots2)
  {
    hide CountedOne;
    assert slots2 == OneEntryLess(slots[tp := slots1[tp]], fp);
  }

  lemma MovedFits(slots: seq<Record>, x: int)
    requires |slots| >= INODE_BLOCK_COUNT && (x == -1 || x in Used(slots))
    ensures IsInt64(x)
  {
    if x != -1 {
      UsedIs(slots, x);
      NumbersFit(x);
    }
  }

  lemma TargetFree(tree: Tree, used: set<int>, root: int, fcs: seq<seq<byte>>, tcs: seq<seq<byte>>, x: int)
    requires ReadyToMove(tree, used, root, fcs, tcs, x)
    ensures Step(tree, Walk(tree, root, tcs[..|tcs| - 1]), tcs[|tcs| - 1]) == -1 && (x == -1 || x in used)
  {
    NS.RootIsNatural(tree, used, root);
    WalkLast(tree, root, tcs);
    InUse(tree, used, root);
    if x != -1 {
      NS.PathEnds(tree, used, root, fcs);
    }
  }

  // ----- listing -----

  /** A directory can be listed just when what its `..` names is still in use. */
  lemma ListableWhen(v: Volume, dirs: seq<Directory>, root: int, n: int)
    requires Sound(v) && Listed(v.store.img, v.slots, v.maps, dirs) && |dirs| == INODE_BLOCK_COUNT <= |v.slots|
    requires NS.TreeShape(TreeOf(v.slots, dirs), Used(v.slots), root) && n in TreeOf(v.slots, dirs)
    ensures NS.DOTDOT in TreeOf(v.slots, dirs)[n]
    ensures AllLoadable(v.slots, Listing(dirs[n])) <==> TreeOf(v.slots, dirs)[n][NS.DOTDOT] in Used(v.slots)
  {
    hide TreeOf, Listed, Sound, Maps, Lists, Shown, Listing, Directories.Names, Distinct, NS.TreeShape, Used, Loadable;
    InTree(v.slots, dirs, n);
    InodeAt(v, v.store.img, dirs, n);
    var tree, used, es := TreeOf(v.slots, dirs), Used(v.slots), Listing(dirs[n]);
    NS.HasDots(tree, used, root, n);
    NamesAre(es);
    forall i | 0 <= i < |es| && es[i].name != NS.DOTDOT
      ensures Loadable(v.slots, es[i].inum)
    {
      EntryLoads(v.slots, tree, root, n, es[i].name);
    }
    LoadableIsUsed(v.slots, tree[n][NS.DOTDOT]);
    assert Named(es, NS.DOTDOT);
  }

  lemma LoadableIsUsed(slots: seq<Record>, n: int)
    requires |slots| >= INODE_BLOCK_COUNT
    ensures Loadable(slots, n) <==> n in Used(slots)
  {
  }

  lemma EntryLoads(slots: seq<Record>, tree: Tree, root: int, n: int, name: seq<byte>)
    requires |slots| >= INODE_BLOCK_COUNT && NS.TreeShape(tree, Used(slots), root)
    requires n in tree && name in tree[n] && name != NS.DOTDOT
    ensures Loadable(slots, tree[n][name])
  {
    NS.HasDots(tree, Used(slots), root, n);
    InUse(tree, Used(slots), root);
    assert name != NS.DOT ==> NS.Entry(tree, n, name);
    hide NS.TreeShape;
    UsedIs(slots, tree[n][name]);
  }

  // ----- the root directory -----

  /** No inode is in use yet. */
  ghost predicate Unused(slots: seq<Record>) {
    forall n :: InodeNumValid(n) && n < |slots| ==> !slots[n].isAllocated
  }

  /** A fresh disk, as fs_init leaves it. */
  method InitDisk() returns (fs: FileSystem)
    ensures fresh(fs) && fresh(fs.disk) && fresh(fs.disk.mem) && fresh(fs.table) && fresh(fs.table.rows)
    ensures Whole(fs) && Tidy(fs.At(fs.table.slots)) && Unused(fs.table.slots) && fs.root == 0
    ensures Fresh(fs.At(fs.table.slots)) && fs.disk.live == {} && fs.leaked == multiset{}
  {
    hide Listed, Sound, Tidy, Unused, Fresh;
    fs := new FileSystem();
    TableSize(fs);
    FreshIs(fs.At(fs.table.slots));
    FreshSound(fs.At(fs.table.slots));
    FreshListed(fs.At(fs.table.slots), fs.dirs);
  }

  lemma FreshIs(v: Volume)
    requires v.maps == seq(INODE_BLOCK_COUNT, _ => EMPTY_MAP) && v.store.live == {} && v.leaked == multiset{}
    requires |v.slots| == INODE_BLOCK_COUNT * INODES_PER_BLOCK
    requires forall n :: 0 <= n < |v.slots| ==> v.slots[n] == BlankRecord()
    ensures Fresh(v)
  {
  }

  lemma FreshListed(v: Volume, dirs: seq<Directory>)
    requires Fresh(v) && dirs == seq(INODE_BLOCK_COUNT, _ => [])
    ensures Listed(v.store.img, v.slots, v.maps, dirs) && Unused(v.slots)
  {
    forall n | InodeNumValid(n)
      ensures Lists(v.store.img, v.slots[n], v.maps[n], dirs[n])
    {
      EmptyLists(v.store.img, v.slots[n]);
    }
    hide Lists;
  }

  /** The tree with nothing but the root. */
  function RootTree(root: int): Tree {
    map[root := map[NS.DOT := root, NS.DOTDOT := root]]
  }

  lemma RootShape(root: int)
    requires root >= 0
    ensures NS.TreeShape(RootTree(root), {root}, root) && Proper(RootTree(root))
  {
    assert NS.Ranked(RootTree(root), map[root := 0]);
  }

  lemma UnusedTree(slots: seq<Record>, dirs: seq<Directory>)
    requires Unused(slots) && |dirs| == INODE_BLOCK_COUNT <= |slots|
    ensures TreeOf(slots, dirs) == map[] && Used(slots) == {}
  {
    hide Listing, Directories.Names;
  }

  /** Loading the superblock of a disk that is in use changes nothing. */
  method Reload(disk: Disk) returns (ok: bool)
    requires disk.Valid()
    modifies disk`maxAlloc, disk`freelistHead
    ensures ok && disk.Valid() && disk.maxAlloc == old(disk.maxAlloc) && disk.freelistHead == old(disk.freelistHead)
  {
    hide Word, SuperImage, FreeList.Allocator, FreeList.LiveBlocks;
    ghost var maxAlloc, freelistHead := disk.maxAlloc, disk.freelistHead;
    ok := disk.LoadSuperblock();
    assert old(disk.Saved(maxAlloc, freelistHead));
  }

  /** What booting takes for a root directory. */
  predicate RootThere(slots: seq<Record>, root: int) {
    Loadable(slots, root) && slots[root].filesCount >= 2
  }

  /** The root that booting made: in the lowest free inode, with its two entries, and nothing else changed. */
  ghost predicate RootMade(v: Volume, tree: Tree, root: int, v': Volume, tree': Tree) {
    && INODE_BLOCK_COUNT <= |v.slots| && INODE_BLOCK_COUNT <= |v'.slots| && InodeNumValid(root)
    && !v.slots[root].isAllocated && (forall k :: 0 <= k < root ==> v.slots[k].isAllocated)
    && v'.slots == v.slots[root := v'.slots[root]] && v'.slots[root].isAllocated && v'.slots[root].linkCount == 1
    && tree' == tree[root := map[NS.DOT := root, NS.DOTDOT := root]]
    && CountedTwo(NewRecord(Claimed(v.slots[root]), true, true), v'.slots[root])
    && v'.leaked == v.leaked && Kept(v, {root}, v')
  }

  /** No root could be made: without a free number nothing changed, and without a spare block the number is taken. */
  ghost predicate RootNotMade(v: Volume, root: int, v': Volume) {
    if HasFree(v.slots) then
      && InodeNumValid(root) && root < |v.slots| && !v.slots[root].isAllocated
      && (forall k :: 0 <= k < root ==> v.slots[k].isAllocated)
      && v' == v.(slots := v.slots[root := Claimed(v.slots[root])])
    else
      root == -1 && v' == v
  }

  lemma NotMade(v: Volume, n: int, v': Volume)
    requires |v.slots| >= INODE_BLOCK_COUNT && (n == -1 <==> !HasFree(v.slots)) && (n == -1 ==> v' == v)
    requires n != -1 ==>
      && InodeNumValid(n) && !v.slots[n].isAllocated && (forall k :: 0 <= k < n ==> v.slots[k].isAllocated)
      && v' == v.(slots := v.slots[n := Claimed(v.slots[n])])
    ensures RootNotMade(v, n, v')
  {
  }

  /**
   * Finds the root directory, or makes one. A healthy disk stays as it is, and the one that is made on a disk without
   * inodes in use makes the disk healthy.
   */
  method BootUp(fs: FileSystem) returns (ok: bool)
    requires Whole(fs)
    modifies fs, fs.disk, fs.disk.mem, fs.table, fs.table.rows
    ensures Whole(fs) && (old(Tidy(fs.At(fs.table.slots))) ==> Tidy(fs.At(fs.table.slots)))
    ensures old(RootThere(fs.table.slots, fs.root)) ==>
      ok && fs.At(fs.table.slots) == old(fs.At(fs.table.slots)) && fs.dirs == old(fs.dirs) && fs.root == old(fs.root)
    ensures !old(RootThere(fs.table.slots, fs.root)) ==>
      && (ok <==> HasFree(old(fs.table.slots)) && Spare(old(fs.disk.live)) > 0)
      && (ok ==>
            RootMade(old(fs.At(fs.table.slots)), old(NamesOf(fs)), fs.root, fs.At(fs.table.slots), NamesOf(fs)))
      && (!ok ==> RootNotMade(old(fs.At(fs.table.slots)), fs.root, fs.At(fs.table.slots)) && fs.dirs == old(fs.dirs))
    ensures old(Healthy(fs)) ==> ok && Healthy(fs)
    ensures old(Tidy(fs.At(fs.table.slots)) && Unused(fs.table.slots)) && ok ==>
      Healthy(fs) && fs.root == 0 && NamesOf(fs) == RootTree(0) && Used(fs.table.slots) == {0}
    ensures ok ==> Leads(old(fs.At(fs.table.slots)), fs.At(fs.table.slots))
  {
    hide RootNotMade, Leads, Sound, Tidy, Listed, Lists, TreeOf, Proper, NS.TreeShape, OneLinkEach, Used, HasFree, Kept,
         RootMade, Spare, fs.disk.Valid, fs.table.Valid, Unused;
    ghost var slots, v, dirs := fs.table.slots, fs.At(fs.table.slots), fs.dirs;
    TableSize(fs);
    ListedSizes(v.store.img, slots, v.maps, fs.dirs);
    if Healthy(fs) {
      RootIsThere(v, fs.dirs, fs.root);
    }
    if Unused(slots) {
      NothingThere(slots, fs.root);
    }
    LeadsNowhere(v);
    var _ := Reload(fs.disk);
    var root := fs.table.LoadINode(fs.root);
    if root != null && root.isAllocated && root.filesCount >= 2 {
      return true;
    }
    ok := CreateRoot(fs);
    if ok && Unused(slots) {
      ListedSizes(fs.disk.img, fs.table.slots, fs.maps, fs.dirs);
      RootMadeParts(v, TreeOf(slots, dirs), fs.root, fs.At(fs.table.slots), NamesOf(fs));
      FirstIsZero(slots, fs.root);
      RootHealthy(slots, dirs, fs.root, fs.table.slots[fs.root]);
    }
  }

  /** Takes the lowest free inode and makes it the root directory. */
  method CreateRoot(fs: FileSystem) returns (ok: bool)
    requires Whole(fs)
    modifies fs, fs.disk, fs.disk.mem, fs.table, fs.table.rows
    ensures Whole(fs) && (old(Tidy(fs.At(fs.table.slots))) ==> Tidy(fs.At(fs.table.slots)))
    ensures ok <==> HasFree(old(fs.table.slots)) && Spare(old(fs.disk.live)) > 0
    ensures ok ==>
      && InodeNumValid(fs.root) && |fs.dirs| == INODE_BLOCK_COUNT
      && fs.dirs[fs.root] == [[Entry(fs.root, NS.DOT), Entry(fs.root, NS.DOTDOT)]]
    ensures !ok ==> RootNotMade(old(fs.At(fs.table.slots)), fs.root, fs.At(fs.table.slots)) && fs.dirs == old(fs.dirs)
    ensures ok ==>
      RootMade(old(fs.At(fs.table.slots)), old(NamesOf(fs)), fs.root, fs.At(fs.table.slots), NamesOf(fs))
    ensures ok ==> Leads(old(fs.At(fs.table.slots)), fs.At(fs.table.slots))
  {
    hide CountedTwo, Leads, Sound, Tidy, Listed, Lists, TreeOf, HasFree, Kept, RootMade, RootNotMade, Spare,
         fs.disk.Valid, fs.table.Valid;
    ghost var slots, v, dirs := fs.table.slots, fs.At(fs.table.slots), fs.dirs;
    TableSize(fs);
    ListedSizes(v.store.img, slots, v.maps, fs.dirs);
    var n := Create(fs);
    FreeNumber(slots, n);
    fs.root := n;
    var root := fs.table.LoadINode(fs.root);
    NotMade(v, n, fs.At(fs.table.slots));
    if root == null {
      return false;
    }
    ClaimedListed(v, fs.dirs, n);
    ghost var v1 := fs.At(fs.table.slots);
    ok := MakeRoot(fs, n, root, slots);
    if ok {
      ListedSizes(fs.disk.img, fs.table.slots, fs.maps, fs.dirs);
      LeadsFar(v, v1, fs.At(fs.table.slots));
      IsRootMade(v, TreeOf(slots, dirs), n, fs.At(fs.table.slots), NamesOf(fs));
    }
  }

  lemma RootMadeParts(v: Volume, tree: Tree, n: int, v': Volume, tree': Tree)
    requires RootMade(v, tree, n, v', tree')
    ensures InodeNumValid(n) && n < |v.slots| && n < |v'.slots| && (forall k :: 0 <= k < n ==> v.slots[k].isAllocated)
    ensures v'.slots == v.slots[n := v'.slots[n]] && v'.slots[n].isAllocated && v'.slots[n].linkCount == 1
    ensures tree' == tree[n := map[NS.DOT := n, NS.DOTDOT := n]]
  {
    hide Kept;
  }

  lemma IsRootMade(v: Volume, tree: Tree, n: int, v': Volume, tree': Tree)
    requires INODE_BLOCK_COUNT <= |v.slots| && INODE_BLOCK_COUNT <= |v'.slots| && InodeNumValid(n)
    requires !v.slots[n].isAllocated && (forall k :: 0 <= k < n ==> v.slots[k].isAllocated)
    requires v'.slots == v.slots[n := v'.slots[n]] && v'.slots[n].isAllocated && v'.slots[n].linkCount == 1
    requires tree' == tree[n := map[NS.DOT := n, NS.DOTDOT := n]] && v'.leaked == v.leaked && Kept(v, {n}, v')
    requires CountedTwo(NewRecord(Claimed(v.slots[n]), true, true), v'.slots[n])
    ensures RootMade(v, tree, n, v', tree')
  {
    hide Kept, CountedTwo;
  }

  lemma FirstIsZero(slots: seq<Record>, n: int)
    requires Unused(slots) && |slots| >= INODE_BLOCK_COUNT
    requires InodeNumValid(n) && forall k :: 0 <= k < n ==> slots[k].isAllocated
    ensures n == 0
  {
    assert InodeNumValid(0) && !slots[0].isAllocated;
  }

  lemma RootIsThere(v: Volume, dirs: seq<Directory>, root: int)
    requires Sound(v) && Listed(v.store.img, v.slots, v.maps, dirs)
    requires |dirs| == INODE_BLOCK_COUNT <= |v.slots| && NS.TreeShape(TreeOf(v.slots, dirs), Used(v.slots), root)
    ensures InodeNumValid(root) && v.slots[root].isAllocated && v.slots[root].filesCount >= 2
  {
    hide TreeOf, Listed, Sound, Used, NS.TreeShape;
    RootHasDots(TreeOf(v.slots, dirs), Used(v.slots), root);
    InTree(v.slots, dirs, root);
    EmptyDirIsExact(v, dirs, root);
  }

  lemma RootHasDots(tree: Tree, used: set<int>, root: int)
    requires NS.TreeShape(tree, used, root)
    ensures root in tree && |tree[root]| >= 2
  {
    assert NS.Grounded(tree, used, root);
    hide NS.TreeShape;
    NS.SubsetSize({NS.DOT, NS.DOTDOT}, tree[root].Keys);
    assert |tree[root].Keys| == |tree[root]| && NS.DOT != NS.DOTDOT;
  }

  lemma NothingThere(slots: seq<Record>, root: int)
    requires Unused(slots) && |slots| >= INODE_BLOCK_COUNT
    ensures InodeNumValid(root) ==> !slots[root].isAllocated
  {
  }

  /** Turns the inode that was taken into the root directory. */
  method MakeRoot(fs: FileSystem, n: int, root: Inode, ghost slots: seq<Record>) returns (ok: bool)
    requires Whole(fs) && InodeNumValid(n) && fs.root == n && |slots| == |fs.table.slots|
    requires slots[n] == Erased(slots[n]) && fs.table.slots == slots[n := Claimed(slots[n])]
    requires root.Rec() == fs.table.slots[n] && fs.maps[n] == EMPTY_MAP && fs.dirs[n] == []
    requires |fs.dirs| == INODE_BLOCK_COUNT <= |slots|
    modifies fs`maps, fs`leaked, fs`dirs, fs.disk, fs.disk.mem, fs.table, fs.table.rows, root
    ensures Whole(fs) && (old(Tidy(fs.At(fs.table.slots))) ==> Tidy(fs.At(fs.table.slots)))
    ensures ok <==> Spare(old(fs.disk.live)) > 0
    ensures !ok ==> fs.At(fs.table.slots) == old(fs.At(fs.table.slots)) && fs.dirs == old(fs.dirs)
    ensures ok ==>
      && NamesOf(fs) == TreeOf(slots, old(fs.dirs))[n := map[NS.DOT := n, NS.DOTDOT := n]]
      && |fs.table.slots| == |slots| && fs.table.slots == slots[n := fs.table.slots[n]]
      && fs.table.slots[n].isAllocated && fs.table.slots[n].linkCount == 1 && fs.leaked == old(fs.leaked)
      && Kept(old(fs.At(slots)), {n}, fs.At(fs.table.slots))
      && CountedTwo(NewRecord(Claimed(slots[n]), true, true), fs.table.slots[n])
      && |fs.dirs| == INODE_BLOCK_COUNT && fs.dirs[n] == [[Entry(n, NS.DOT), Entry(n, NS.DOTDOT)]]
    ensures ok ==> Leads(old(fs.At(fs.table.slots)), fs.At(fs.table.slots))
  {
    hide CountedTwo, Leads, Sound, Tidy, Listed, Lists, TreeOf, Proper, NS.TreeShape, OneLinkEach, Used, Kept, Spare,
         fs.disk.Valid, fs.table.Valid;
    ghost var v, v0 := fs.At(fs.table.slots), fs.At(slots);
    TableSize(fs);
    ListedSizes(v.store.img, v.slots, v.maps, fs.dirs);
    root.isAllocated := true;
    root.linkCount := 1;
    root.isDir, root.canWrite := true, true;
    root.blocks, root.fileSize := 0, 0;
    root.filesCount := 0;
    ghost var slots1, dirs := fs.table.slots[n := root.Rec()], fs.dirs;
    NewListed(v, dirs, n, root.Rec());
    EditLeads(v, n, root.Rec());
    assert slots1 == slots[n := root.Rec()];
    SlotKept(v0, n, root.Rec());
    ghost var v1 := fs.At(slots1);
    TreeReplaced(slots, dirs, n, slots1[n], dirs[n]);
    assert dirs[n := dirs[n]] == dirs;
    ok := EnterDots(fs, n, root, n, slots1);
    if ok {
      KeptTwice(v0, {n}, v1, {n}, fs.At(fs.table.slots));
      LeadsFar(v, v1, fs.At(fs.table.slots));
      assert {n} + {n} == {n};
      assert slots1[n := root.Rec()] == slots[n := root.Rec()];
    }
  }

  lemma OnlyRootLinked(slots: seq<Record>, r': Record)
    requires Unused(slots) && |slots| >= INODE_BLOCK_COUNT && r'.isAllocated && r'.linkCount == 1
    ensures OneLinkEach(slots[0 := r'])
  {
  }

  lemma RootHealthy(slots: seq<Record>, dirs: seq<Directory>, n: int, r': Record)
    requires Unused(slots) && n == 0 && |slots| >= INODE_BLOCK_COUNT == |dirs|
    requires r'.isAllocated && r'.linkCount == 1
    ensures TreeOf(slots, dirs)[n := map[NS.DOT := n, NS.DOTDOT := n]] == RootTree(n)
    ensures Used(slots[n := r']) == {n} && OneLinkEach(slots[n := r'])
    ensures NS.TreeShape(RootTree(n), {n}, n) && Proper(RootTree(n))
  {
    OnlyRootLinked(slots, r');
    hide TreeOf, Used, OneLinkEach, NS.TreeShape, Proper;
    UnusedTree(slots, dirs);
    UsedReplaced(slots, n, r');
    RootShape(n);
  }
}
