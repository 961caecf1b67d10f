/** Finding the inode of a path (src/inode.cpp:1057-1157) and listing a directory (src/linkFuseAndFS.cpp:607-661). */
module Resolution {
  import opened Geometry
  import opened DataBlocks
  import opened Inodes
  import opened InodeTable
  import opened BlockMaps
  import opened Lookup
  import opened DirectoryBlocks
  import opened Directories
  import opened DirectoryOps
  import opened Ownership
  import opened Storage
  import opened Paths

  // ----- the tree of names -----

  type Names = map<seq<byte>, int>

  /** The names in every directory, by its inode number. */
  type Tree = map<int, Names>

  ghost function TreeOf(slots: seq<Record>, dirs: seq<Directory>): Tree
    requires |dirs| == INODE_BLOCK_COUNT <= |slots|
  {
    map n | 0 <= n < INODE_BLOCK_COUNT && slots[n].isAllocated && slots[n].isDir :: Directories.Names(Listing(dirs[n]))
  }

  /** The inode under a name in directory d, or -1. */
  function Step(tree: Tree, d: int, name: seq<byte>): int {
    if d in tree && name in tree[d] then tree[d][name] else -1
  }

  /** The walk from inode `from` along the components, left to right. */
  function Walk(tree: Tree, from: int, cs: seq<seq<byte>>): int
    decreases |cs|
  {
    if cs == [] then from
    else
      var d := Step(tree, from, cs[0]);
      if d == -1 then -1 else Walk(tree, d, cs[1..])
  }

  /** The recursion from the end of the path. */
  function Resolve(tree: Tree, root: int, path: Path): int
    requires path != []
    decreases if path == ROOT_PATH then 0 else |path|
  {
    if path == ROOT_PATH then root
    else
      ParentSmaller(path);
      var p := Resolve(tree, root, ParentPath(path));
      if p == -1 then -1 else Step(tree, p, FileName(path))
  }

  lemma ParentSmaller(path: Path)
    requires path != []
    ensures ParentPath(path) != [] && (ParentPath(path) == ROOT_PATH || |ParentPath(path)| < |path|)
  {
  }

  lemma {:induction false} WalkLast(tree: Tree, from: int, cs: seq<seq<byte>>)
    requires cs != [] && from != -1
    ensures var p := Walk(tree, from, cs[..|cs| - 1]);
      Walk(tree, from, cs) == if p == -1 then -1 else Step(tree, p, cs[|cs| - 1])
    decreases |cs|
  {
    var d := Step(tree, from, cs[0]);
    if |cs| > 1 {
      assert cs[..|cs| - 1][0] == cs[0] && cs[..|cs| - 1][1..] == cs[1..][..|cs| - 2];
      if d != -1 {
        WalkLast(tree, d, cs[1..]);
      }
    }
  }

  /** The recursive resolver is the left-to-right walk from the root. */
  lemma {:induction false} ResolveIsWalk(tree: Tree, root: int, path: Path, cs: seq<seq<byte>>)
    requires path != [] && Spells(path, cs) && root != -1
    ensures Resolve(tree, root, path) == Walk(tree, root, cs)
    decreases |cs|
  {
    if cs == [] {
      assert Text(cs) == [];
    } else {
      hide FileName, ParentPath;
      SplitPath(path, cs);
      ParentSmaller(path);
      ResolveIsWalk(tree, root, ParentPath(path), cs[..|cs| - 1]);
      WalkLast(tree, root, cs);
    }
  }

  // ----- the whole file system -----

  /** Every inode and the entries of its directory agree. */
  ghost predicate Listed(img: Image, slots: seq<Record>, maps: seq<BlockMap>, dirs: seq<Directory>) {
    && |dirs| == |maps| == INODE_BLOCK_COUNT <= |slots|
    && forall n :: InodeNumValid(n) ==> Lists(img, slots[n], maps[n], dirs[n])
  }

  ghost predicate Whole(fs: FileSystem)
    reads fs, fs.disk, fs.disk.mem, fs.table, fs.table.rows
  {
    && fs.Stored() && Sound(fs.At(fs.table.slots))
    && Listed(fs.disk.img, fs.table.slots, fs.maps, fs.dirs)
  }

  lemma InodeAt(v: Volume, img: Image, dirs: seq<Directory>, n: int)
    requires Sound(v) && Listed(img, v.slots, v.maps, dirs) && InodeNumValid(n) && v.store.img == img
    ensures n < |v.slots| && n < |v.maps| && n < |dirs|
    ensures Maps(img, v.slots[n], v.maps[n]) && Lists(img, v.slots[n], v.maps[n], dirs[n])
    ensures v.slots[n].isAllocated && v.slots[n].isDir ==>
      Shown(img, v.maps[n], dirs[n]) && Distinct(Listing(dirs[n])) && v.slots[n].filesCount == |Listing(dirs[n])|
    ensures forall name :: v.slots[n].isAllocated ==>
      Step(TreeOf(v.slots, dirs), n, name) == if v.slots[n].isDir then LookedUp(Listing(dirs[n]), name) else -1
  {
    hide Maps, Shown, Distinct, Listing, TreeOf, Step, Listed, Sound;
    SlotMap(v, n);
    ListsAt(img, v.slots, v.maps, dirs, n);
    forall name | v.slots[n].isAllocated
      ensures Step(TreeOf(v.slots, dirs), n, name)
        == if v.slots[n].isDir then LookedUp(Listing(dirs[n]), name) else -1
    {
      StepIs(v.slots, dirs, n, name);
    }
  }

  lemma ListsAt(img: Image, slots: seq<Record>, maps: seq<BlockMap>, dirs: seq<Directory>, n: int)
    requires Listed(img, slots, maps, dirs) && InodeNumValid(n)
    ensures n < |slots| && n < |maps| && n < |dirs| && |dirs| == INODE_BLOCK_COUNT <= |slots|
    ensures Lists(img, slots[n], maps[n], dirs[n])
  {
    hide Lists;
  }

  lemma StepIs(slots: seq<Record>, dirs: seq<Directory>, n: int, name: seq<byte>)
    requires |dirs| == INODE_BLOCK_COUNT <= |slots| && InodeNumValid(n) && slots[n].isAllocated
    ensures Step(TreeOf(slots, dirs), n, name) == if slots[n].isDir then LookedUp(Listing(dirs[n]), name) else -1
  {
    hide Listing, Directories.Names;
  }

  lemma NotLoadable(slots: seq<Record>, dirs: seq<Directory>, n: int, name: seq<byte>)
    requires |dirs| == INODE_BLOCK_COUNT <= |slots|
    requires !InodeNumValid(n) || !slots[n].isAllocated
    ensures Step(TreeOf(slots, dirs), n, name) == -1
  {
    hide Listing, Directories.Names;
  }

  /** The inode of a path, by the recursion on its parent. */
  method GetInodeOfFile(fs: FileSystem, path: Path) returns (inum: int)
    requires Whole(fs) && path != []
    ensures inum == Resolve(TreeOf(fs.table.slots, fs.dirs), fs.root, path)
    decreases if path == ROOT_PATH then 0 else |path|
  {
    hide Sound, Listed, Listing, TreeOf, Step, ParentPath, FileName, Shown, Distinct, Lists, Maps, Directories.Names,
         fs.disk.Valid;
    if |path| == 1 && path[0] == SLASH {
      return fs.root;
    }
    ParentSmaller(path);
    var parentPath := CopyParentPath(path);
    var parentInum := GetInodeOfFile(fs, parentPath);
    if parentInum == -1 {
      return -1;
    }
    var childPath := CopyFileName(path);
    ListedSizes(fs.disk.img, fs.table.slots, fs.maps, fs.dirs);
    var node := fs.table.LoadINode(parentInum);
    if node == null {
      NotLoadable(fs.table.slots, fs.dirs, parentInum, childPath);
      return -1;
    }
    InodeAt(fs.At(fs.table.slots), fs.disk.img, fs.dirs, parentInum);
    inum := LookupName(fs.disk, node, childPath, fs.maps[parentInum], fs.dirs[parentInum]);
  }

  lemma ListedSizes(img: Image, slots: seq<Record>, maps: seq<BlockMap>, dirs: seq<Directory>)
    requires Listed(img, slots, maps, dirs)
    ensures |dirs| == |maps| == INODE_BLOCK_COUNT <= |slots|
  {
  }

  // ----- listing a directory -----

  const ENOENT := 2
  const EACCES := 13
  const ENOTDIR := 20
  const EINVAL := 22

  lemma LoadableParts(slots: seq<Record>, dir: Directory, k: int)
    requires 0 <= k < |dir|
    ensures AllLoadable(slots, Listing(dir[..k + 1])) <==>
      AllLoadable(slots, Listing(dir[..k])) && AllLoadable(slots, dir[k])
    ensures Listing(dir[..k + 1]) == Listing(dir[..k]) + dir[k]
  {
    ListingPrefix(dir, k);
    var a, b := Listing(dir[..k]), dir[k];
    var es := Listing(dir[..k + 1]);
    hide Listing, Loadable;
    assert forall i :: 0 <= i < |a| ==> es[i] == a[i];
    assert forall i :: 0 <= i < |b| ==> es[|a| + i] == b[i];
  }

  lemma ListingPrefix(dir: Directory, k: int)
    requires 0 <= k < |dir|
    ensures Listing(dir[..k + 1]) == Listing(dir[..k]) + dir[k]
  {
    assert dir[..k + 1][..k] == dir[..k];
  }

  lemma {:induction false} PartsLoadable(slots: seq<Record>, dir: Directory, k: int)
    requires 0 <= k <= |dir| && AllLoadable(slots, Listing(dir))
    ensures AllLoadable(slots, Listing(dir[..k]))
    decreases |dir| - k
  {
    if k == |dir| {
      assert dir[..k] == dir;
    } else {
      PartsLoadable(slots, dir, k + 1);
      LoadableParts(slots, dir, k);
    }
  }

  /** The entries of all blocks of a loaded directory, handed on in order. */
  method ListBlocks(fs: FileSystem, node: Inode, ghost m: BlockMap,
                    ghost dir: Directory) returns (ok: bool, out: seq<Entry>)
    requires fs.Stored() && Maps(fs.disk.img, node.Rec(), m) && Shown(fs.disk.img, m, dir)
    ensures ok <==> AllLoadable(fs.table.slots, Listing(dir))
    ensures if ok then out == Listing(dir) else UpToMissing(fs.table.slots, Listing(dir), out)
  {
    hide UpToMissing, Maps, Shown, Searchable, Listing, DirectoryBlock, Fits, AllLoadable, CacheHit, fs.disk.Valid,
         fs.table.Valid;
    DirLength(fs.disk.img, node.Rec(), m, dir);
    out := [];
    NothingListed(fs.table.slots, dir);
    var prev, k := 0, 0;
    while k < node.blocks
      invariant 0 <= k <= node.blocks == |dir| && CacheOk(m, k, prev)
      invariant out == Listing(dir[..k]) && AllLoadable(fs.table.slots, Listing(dir[..k]))
    {
      Scannable(fs.disk.img, node.Rec(), m, k);
      ShownAt(fs.disk.img, m, dir, k);
      var b, next := GetDatablockFromInode(fs.disk, node, k, prev, m);
      var block := ReadDataBlock(fs.disk, b);
      var listed, es := ListBlock(fs, block.value, dir[k]);
      LoadableParts(fs.table.slots, dir, k);
      if !listed {
        NotAllLoadable(fs.table.slots, dir, k);
        MissingIn(fs.table.slots, dir, k, es);
      }
      out := out + es;
      if !listed {
        return false, out;
      }
      prev, k := next, k + 1;
    }
    assert dir[..k] == dir;
    ok := true;
  }

  /** What is missing from block k on is missing from the whole listing. */
  lemma MissingIn(slots: seq<Record>, dir: Directory, k: int, es: seq<Entry>)
    requires 0 <= k < |dir| && AllLoadable(slots, Listing(dir[..k])) && UpToMissing(slots, dir[k], es)
    ensures UpToMissing(slots, Listing(dir), Listing(dir[..k]) + es)
  {
    hide Listing, UpToMissing, AllLoadable;
    ListingAt(dir, k);
    MissingBetween(slots, Listing(dir[..k]), dir[k], Listing(dir[k + 1..]), es);
  }

  lemma MissingBetween(slots: seq<Record>, a: seq<Entry>, b: seq<Entry>, c: seq<Entry>, es: seq<Entry>)
    requires AllLoadable(slots, a) && UpToMissing(slots, b, es)
    ensures UpToMissing(slots, a + b + c, a + es)
  {
    hide Loadable;
    assert (a + b + c)[..|a + es|] == a + es;
    assert (a + b + c)[|a + es|] == b[|es|];
  }

  lemma NothingListed(slots: seq<Record>, dir: Directory)
    ensures Listing(dir[..0]) == [] && AllLoadable(slots, Listing(dir[..0]))
  {
  }

  lemma NotAllLoadable(slots: seq<Record>, dir: Directory, k: int)
    requires 0 <= k < |dir| && !AllLoadable(slots, Listing(dir[..k + 1]))
    ensures !AllLoadable(slots, Listing(dir))
  {
    if AllLoadable(slots, Listing(dir)) {
      PartsLoadable(slots, dir, k + 1);
    }
  }

  /** Reports every entry of the directory once, in order, and nothing else. */
  method ReadDir(fs: FileSystem, path: Path) returns (code: int, out: seq<Entry>)
    requires Whole(fs) && path != []
    ensures var tree, n := TreeOf(fs.table.slots, fs.dirs), Resolve(TreeOf(fs.table.slots, fs.dirs), fs.root, path);
      && (code == 0 <==> n in tree && AllLoadable(fs.table.slots, Listing(fs.dirs[n])))
      && (code == 0 ==> out == Listing(fs.dirs[n]))
      && (code != 0 ==>
            if n in tree then UpToMissing(fs.table.slots, Listing(fs.dirs[n]), out) else out == [])
      && (code == -ENOENT <==> n == -1)
      && (code == 0 || code == -ENOENT || code == -ENOTDIR)
  {
    hide UpToMissing, Sound, Listed, Listing, Step, Resolve, Shown, Distinct, Lists, Maps, AllLoadable,
         Directories.Names, fs.disk.Valid;
    out := [];
    var n := GetInodeOfFile(fs, path);
    ListedSizes(fs.disk.img, fs.table.slots, fs.maps, fs.dirs);
    if n == -1 {
      return -ENOENT, out;
    }
    var node := fs.table.LoadINode(n);
    if node == null {
      return -ENOTDIR, out;
    }
    InodeAt(fs.At(fs.table.slots), fs.disk.img, fs.dirs, n);
    if !node.isDir {
      return -ENOTDIR, out;
    }
    var ok;
    ok, out := ListBlocks(fs, node, fs.maps[n], fs.dirs[n]);
    code := if ok then 0 else -ENOTDIR;
  }

  /** What is reported is what path lookup finds: the directory's map, each name once. */
  lemma ReportedIsFound(slots: seq<Record>, dirs: seq<Directory>, n: int)
    requires |dirs| == INODE_BLOCK_COUNT <= |slots| && n in TreeOf(slots, dirs) && Distinct(Listing(dirs[n]))
    ensures forall i :: 0 <= i < |Listing(dirs[n])| ==>
      Step(TreeOf(slots, dirs), n, Listing(dirs[n])[i].name) == Listing(dirs[n])[i].inum
    ensures forall name :: name in TreeOf(slots, dirs)[n] ==> Named(Listing(dirs[n]), name)
    ensures |Listing(dirs[n])| == |TreeOf(slots, dirs)[n]|
  {
    NamesAre(Listing(dirs[n]));
    hide Listing, Distinct, Directories.Names;
  }
}
