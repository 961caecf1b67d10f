/** Range removal that starts in the direct or the single indirect region (src/inode.cpp:675-797). */
module RemoveEarly {
  import opened Geometry
  import opened Words
  import opened LayerZero
  import opened Inodes
  import opened BlockMaps
  import opened TreeWalk
  import opened Removal

  /** An inode whose map is right, whose blocks are its own, and whose slots past the end are zero. */
  ghost predicate WellFormed(s: Store, r: Record, m: BlockMap) {
    Maps(s.img, r, m) && Exclusive(s.live, m) && Clean(s.img, r, m)
  }

  ghost function SingleBlocks(m: BlockMap): multiset<int> {
    multiset(m.s1) + multiset(m.s0)
  }

  ghost function DoubleBlocks(m: BlockMap): multiset<int> {
    multiset(m.d2) + (multiset(m.d1) + multiset(m.d0))
  }

  ghost function TripleBlocks(m: BlockMap): multiset<int> {
    multiset(m.t3) + (multiset(m.t2) + (multiset(m.t1) + multiset(m.t0)))
  }

  /** Walks one of the inode's trees after other blocks of the inode have been freed. */
  method RemoveTree(disk: Disk, p: int, level: nat, ghost s: Store, ghost f: multiset<int>, ghost tree: multiset<int>)
    returns (ok: bool)
    requires disk.Valid() && level > 0 && InData(p)
    requires Freed(s, f, disk.Now())
    requires multiset(Tree(s.img, p, level)) == tree && f + tree <= multiset(s.live)
    modifies disk, disk.mem
    ensures ok && disk.Valid()
    ensures Freed(s, f + tree, disk.Now())
  {
    hide Tree, Forest, disk.Valid;
    ghost var s1 := disk.Now();
    StillLive(s, f, s1, tree);
    forall b | b in Tree(s.img, p, level) && InData(b)
      ensures s1.img[b] == s.img[b]
    {
      assert b in tree;
    }
    TreeFrame(s.img, s1.img, p, level);
    ok := RemoveDatablocksNested(disk, p, level);
    FreedMore(s, f, s1, tree, disk.Now());
  }

  /** The trees a file of DIRECT + n blocks has in the double and triple regions. */
  ghost predicate DeepTrees(img: Image, r: Record, m: BlockMap, n: int) {
    && (if n > N then InData(r.double) && multiset(Tree(img, r.double, 2)) == DoubleBlocks(m)
        else DoubleBlocks(m) == multiset{} && r.double == 0)
    && (if n > N + N * N then InData(r.triple) && multiset(Tree(img, r.triple, 3)) == TripleBlocks(m)
        else TripleBlocks(m) == multiset{} && r.triple == 0)
  }

  /** The double tree, if the file reaches it, and then the triple tree, if it reaches that. */
  method RemoveDoubleAndTriple(disk: Disk, node: Inode, start: int, n: int,
                               ghost s: Store, ghost f: multiset<int>, ghost m: BlockMap)
    returns (ok: bool)
    requires disk.Valid() && Freed(s, f, disk.Now())
    requires DeepTrees(s.img, node.Rec(), m, n) && f + DoubleBlocks(m) + TripleBlocks(m) <= multiset(s.live)
    modifies disk, disk.mem, node
    ensures ok && disk.Valid()
    ensures Freed(s, f + DoubleBlocks(m) + TripleBlocks(m), disk.Now())
    ensures node.Rec() == old(node.Rec()).(blocks := start, double := 0, triple := 0)
  {
    hide Tree, Forest, disk.Valid, Freed, DoubleBlocks, TripleBlocks, SingleBlocks;
    ghost var all := f + DoubleBlocks(m) + TripleBlocks(m);
    if n <= N {
      node.blocks := start;
      assert all == f;
      return true;
    }
    assert f + DoubleBlocks(m) <= all;
    ok := RemoveTree(disk, node.double, 2, s, f, DoubleBlocks(m));
    if !ok {
      return;
    }
    node.double := 0;
    if n - N <= N * N {
      node.blocks := start;
      assert all == f + DoubleBlocks(m);
      return;
    }
    ok := RemoveTree(disk, node.triple, 3, s, f + DoubleBlocks(m), TripleBlocks(m));
    if !ok {
      return;
    }
    node.triple := 0;
    node.blocks := start;
  }

  /** What the walks over the trees of a well-formed inode meet. */
  lemma DeepWalks(s: Store, r: Record, m: BlockMap)
    requires WellFormed(s, r, m)
    ensures if r.blocks > DIRECT then InData(r.single) && multiset(Tree(s.img, r.single, 1)) == SingleBlocks(m)
      else SingleBlocks(m) == multiset{} && r.single == 0
    ensures DeepTrees(s.img, r, m, r.blocks - DIRECT)
  {
    hide Tree, Forest, Word;
    hide Exclusive, Owned;
    if r.blocks > DIRECT {
      WalkOfSingle(s.img, m, r.single, 1);
    }
    if r.blocks > DIRECT + N {
      WalkOfDouble(s.img, m, r.double, 2);
    }
    if r.blocks > DIRECT + N + N * N {
      WalkOfTriple(s.img, m, r.triple, 3);
    }
  }

  // ----- starting in the direct region -----

  /** The direct addresses from `start` up to `i` have been zeroed. */
  ghost predicate ZeroedDirect(r: Record, r': Record, start: int, i: int) {
    && |r.direct| == |r'.direct| == DIRECT
    && r' == r.(direct := r'.direct)
    && forall j :: 0 <= j < DIRECT ==> r'.direct[j] == if start <= j < i then 0 else r.direct[j]
  }

  lemma NextDirect(s: Store, r: Record, m: BlockMap, start: int, i: int, s1: Store)
    requires WellFormed(s, r, m) && 0 <= start <= i < |m.direct|
    requires Freed(s, multiset(m.direct[start..i]), s1)
    ensures r.direct[i] == m.direct[i] && r.direct[i] in s1.live
  {
    var here := multiset{m.direct[i]};
    assert m.direct[start..i + 1] == m.direct[start..i] + [m.direct[i]];
    assert m.direct == m.direct[..start] + m.direct[start..i + 1] + m.direct[i + 1..];
    assert multiset(m.direct)
      == multiset(m.direct[..start]) + (multiset(m.direct[start..i]) + here) + multiset(m.direct[i + 1..]);
    assert multiset(m.direct[start..i]) + here <= multiset(s.live) by {
      hide Maps, Clean;
      assert multiset(m.direct) <= Owned(m);
    }
    StillLive(s, multiset(m.direct[start..i]), s1, here);
  }

  lemma DirectExcess(m: BlockMap, start: int)
    requires 0 <= start < DIRECT
    ensures Excess(m, start) == multiset(Rest(m.direct, start)) + SingleBlocks(m) + DoubleBlocks(m) + TripleBlocks(m)
    ensures Truncate(m, start) == EMPTY_MAP.(direct := Cut(m.direct, start))
  {
  }

  lemma DirectDone(s: Store, r: Record, m: BlockMap, start: int, f: multiset<int>, s': Store, r': Record)
    requires WellFormed(s, r, m) && 0 <= start < DIRECT && start <= r.blocks
    requires f == multiset(Rest(m.direct, start)) + SingleBlocks(m) + DoubleBlocks(m) + TripleBlocks(m)
    requires Freed(s, f, s')
    requires var r1 := r'.(blocks := r.blocks, single := r.single, double := r.double, triple := r.triple);
      ZeroedDirect(r, r1, start, |m.direct|)
    requires r'.blocks == start && r'.single == 0 && r'.double == 0 && r'.triple == 0
    ensures Removed(s, r, m, start, multiset{}, s', r')
    ensures Clean(s'.img, r', Truncate(m, start))
  {
    hide Word, Excess, SingleBlocks, DoubleBlocks, TripleBlocks, Truncate;
    DirectExcess(m, start);
    DirectMaps(s, r, m, start, s', r');
    hide WellFormed, Clean, Maps;
  }

  lemma DirectMaps(s: Store, r: Record, m: BlockMap, start: int, s': Store, r': Record)
    requires WellFormed(s, r, m) && 0 <= start < DIRECT && start <= r.blocks
    requires var r1 := r'.(blocks := r.blocks, single := r.single, double := r.double, triple := r.triple);
      ZeroedDirect(r, r1, start, |m.direct|)
    requires r'.blocks == start && r'.single == 0 && r'.double == 0 && r'.triple == 0
    ensures Maps(s'.img, r', EMPTY_MAP.(direct := Cut(m.direct, start)))
    ensures Clean(s'.img, r', EMPTY_MAP.(direct := Cut(m.direct, start)))
    ensures OnlyAddresses(r, r')
  {
    hide Word, Exclusive, Owned;
  }

  lemma DirectFreed(s: Store, m: BlockMap, start: int, i: int, s1: Store, s2: Store)
    requires 0 <= start <= i < |m.direct|
    requires Freed(s, multiset(m.direct[start..i]), s1) && Freed(s1, multiset{m.direct[i]}, s2)
    ensures Freed(s, multiset(m.direct[start..i + 1]), s2)
  {
    hide Freed;
    assert m.direct[start..i + 1] == m.direct[start..i] + [m.direct[i]];
    FreedMore(s, multiset(m.direct[start..i]), s1, multiset{m.direct[i]}, s2);
  }

  lemma DirectShape(s: Store, r: Record, m: BlockMap, start: int)
    requires WellFormed(s, r, m) && 0 <= start <= r.blocks && start < DIRECT
    ensures |m.direct| == (if r.blocks < DIRECT then r.blocks else DIRECT) && |r.direct| == DIRECT
    ensures m.direct[start..] == Rest(m.direct, start)
    ensures multiset(Rest(m.direct, start)) + SingleBlocks(m) + DoubleBlocks(m) + TripleBlocks(m) <= multiset(s.live)
  {
    CutRest(m.direct, start);
    hide Pack, Tail;
    assert multiset(Rest(m.direct, start)) + SingleBlocks(m) + DoubleBlocks(m) + TripleBlocks(m) <= Owned(m);
  }

  lemma NoneZeroed(r: Record, start: int)
    requires |r.direct| == DIRECT
    ensures ZeroedDirect(r, r, start, start)
  {
  }

  lemma ZeroNext(r: Record, r': Record, start: int, i: int)
    requires ZeroedDirect(r, r', start, i) && 0 <= start <= i < DIRECT
    ensures |r'.direct| == DIRECT && r'.direct[i] == r.direct[i]
    ensures ZeroedDirect(r, r'.(direct := r'.direct[i := 0]), start, i + 1)
  {
  }

  method FreeDirect(disk: Disk, node: Inode, start: int, ghost m: BlockMap) returns (ok: bool)
    requires disk.Valid() && WellFormed(disk.Now(), node.Rec(), m)
    requires 0 <= start < DIRECT && start <= node.blocks
    modifies disk, disk.mem, node
    ensures ok && disk.Valid()
    ensures Freed(old(disk.Now()), multiset(Rest(m.direct, start)), disk.Now())
    ensures ZeroedDirect(old(node.Rec()), node.Rec(), start, |m.direct|)
  {
    hide disk.Valid, WellFormed, Freed, ZeroedDirect, Rest, SingleBlocks, DoubleBlocks, TripleBlocks;
    ghost var s, r := disk.Now(), node.Rec();
    DirectShape(s, r, m, start);
    Nothing(s);
    NoneZeroed(r, start);
    assert m.direct[start..start] == [];
    var ending := node.blocks;
    var i := start;
    while i < DIRECT && i < ending
      invariant start <= i <= |m.direct|
      invariant disk.Valid() && Freed(s, multiset(m.direct[start..i]), disk.Now())
      invariant ZeroedDirect(r, node.Rec(), start, i)
    {
      ghost var s1 := disk.Now();
      NextDirect(s, r, m, start, i, s1);
      ZeroNext(r, node.Rec(), start, i);
      var freed := FreeLive(disk, node.direct[i]);
      if !freed {
        return false;
      }
      DirectFreed(s, m, start, i, s1, disk.Now());
      node.direct := node.direct[i := 0];
      i := i + 1;
    }
    assert m.direct[start..i] == m.direct[start..];
    ok := true;
  }

  method RemoveFromDirect(disk: Disk, node: Inode, start: int, ghost m: BlockMap) returns (ok: bool)
    requires disk.Valid() && WellFormed(disk.Now(), node.Rec(), m)
    requires 0 <= start < DIRECT && start <= node.blocks
    modifies disk, disk.mem, node
    ensures ok && disk.Valid()
    ensures Removed(old(disk.Now()), old(node.Rec()), m, start, multiset{}, disk.Now(), node.Rec())
    ensures Clean(disk.img, node.Rec(), Truncate(m, start))
  {
    hide disk.Valid, WellFormed, Freed, Tree, Forest, SingleBlocks, DoubleBlocks, TripleBlocks, Truncate, Excess,
         Removed, Clean, Rest;
    ghost var s, r := disk.Now(), node.Rec();
    ghost var f := multiset(Rest(m.direct, start));
    DirectShape(s, r, m, start);
    DeepWalks(s, r, m);
    var ending := node.blocks;
    ok := FreeDirect(disk, node, start, m);
    if !ok {
      return;
    }
    if ending <= DIRECT {
      node.blocks := start;
      DirectDone(s, r, m, start, f, disk.Now(), node.Rec());
      return true;
    }
    ok := RemoveTree(disk, node.single, 1, s, f, SingleBlocks(m));
    if !ok {
      return;
    }
    node.single := 0;
    ok := RemoveDoubleAndTriple(disk, node, start, ending - DIRECT, s, f + SingleBlocks(m), m);
    DirectDone(s, r, m, start, f + SingleBlocks(m) + DoubleBlocks(m) + TripleBlocks(m), disk.Now(), node.Rec());
  }

  // ----- starting in the single indirect region -----

  lemma SingleWords(img: Image, m: BlockMap, p: int, j: int)
    requires Pack(img, m.s1, m.s0) && Tail(img, m.s1, m.s0) && m.s1 == [p] && 0 <= j < N
    ensures InData(p) && |m.s0| <= N && Word(img[p], j) == if j < |m.s0| then m.s0[j] else 0
  {
    hide Word;
    assert m.s1[0] == p;
    assert j < |m.s0| ==> Word(img[m.s1[0]], j) == m.s0[0 * N + j];
    assert j >= |m.s0| ==> 0 * N + j >= |m.s0| && Word(img[m.s1[0]], j) == 0;
  }

  lemma SingleShape(s: Store, r: Record, m: BlockMap, start: int)
    requires WellFormed(s, r, m) && DIRECT <= start <= r.blocks && start < DIRECT + N
    ensures r.blocks == DIRECT ==> r.single == 0
    ensures r.blocks > DIRECT ==>
      && m.s1 == [r.single] && InData(r.single) && r.single in s.live
      && |m.s0| == (if r.blocks - DIRECT < N then r.blocks - DIRECT else N)
      && m.s0[start - DIRECT..] == Rest(m.s0, start - DIRECT)
    ensures Pack(s.img, m.s1, m.s0) && Tail(s.img, m.s1, m.s0)
  {
    hide Word;
    if r.blocks > DIRECT {
      assert m.s1 == [r.single];
      OwnedIsLive(s.live, m, r.single);
    }
  }

  lemma SingleRoom(live: set<int>, m: BlockMap, x: int)
    requires Exclusive(live, m)
    ensures multiset(m.s0) <= multiset(live)
    ensures multiset(Rest(m.s0, x)) + DoubleBlocks(m) + TripleBlocks(m) + multiset(m.s1) <= multiset(live)
    ensures multiset(Rest(m.s0, x)) + DoubleBlocks(m) + TripleBlocks(m) <= multiset(live)
    ensures multiset(Rest(m.s0, x)) <= multiset(live)
  {
    CutRest(m.s0, x);
    hide Cut, Rest;
    assert multiset(Rest(m.s0, x)) + DoubleBlocks(m) + TripleBlocks(m) + multiset(m.s1) <= Owned(m);
    assert multiset(m.s0) <= Owned(m);
  }

  /** The data blocks from entry x of single block p were freed, and the entries zeroed. */
  ghost predicate SingleFreed(s: Store, m: BlockMap, x: int, p: int, s': Store) {
    && InData(p)
    && Freed(With(s, p, s'), multiset(Rest(m.s0, x)), s')
    && ZeroedEntries(s.img[p], s'.img[p], x, |m.s0|)
  }

  /** Frees the entries of the single block from x onward and writes the block back with zeros there. */
  method FreeSingle(disk: Disk, node: Inode, x: int, ghost m: BlockMap)
    requires disk.Valid() && WellFormed(disk.Now(), node.Rec(), m)
    requires DIRECT + x <= node.blocks && 0 <= x < N && node.blocks > DIRECT
    modifies disk, disk.mem
    ensures disk.Valid()
    ensures SingleFreed(old(disk.Now()), m, x, node.single, disk.Now())
  {
    hide disk.Valid, WellFormed, Freed, PutWord, Word, Rest, ZeroedEntries, With, DoubleBlocks, TripleBlocks;
    ghost var s := disk.Now();
    SingleReady(s, node.Rec(), m, x);
    SingleWithRoom(s, node.Rec(), m, x);
    var _ := EmptySingle(disk, node.single, x, node.blocks - DIRECT, false, Rest(m.s0, x));
  }

  lemma SingleWithRoom(s: Store, r: Record, m: BlockMap, x: int)
    requires WellFormed(s, r, m) && DIRECT + x <= r.blocks && 0 <= x < N && r.blocks > DIRECT
    ensures r.single in s.live && multiset(Rest(m.s0, x)) + multiset{r.single} <= multiset(s.live)
  {
    hide Word, DoubleBlocks, TripleBlocks;
    SingleShape(s, r, m, DIRECT + x);
    SingleRoom(s.live, m, x);
    assert multiset(m.s1) == multiset{r.single};
  }

  lemma SingleReady(s: Store, r: Record, m: BlockMap, x: int)
    requires WellFormed(s, r, m) && DIRECT + x <= r.blocks && 0 <= x < N && r.blocks > DIRECT
    ensures m.s1 == [r.single] && InData(r.single)
    ensures x + |Rest(m.s0, x)| == |m.s0| == (if r.blocks - DIRECT < N then r.blocks - DIRECT else N)
    ensures multiset(Rest(m.s0, x)) <= multiset(s.live)
    ensures multiset(Rest(m.s0, x)) + DoubleBlocks(m) + TripleBlocks(m) + multiset(m.s1) <= multiset(s.live)
    ensures multiset(Rest(m.s0, x)) + DoubleBlocks(m) + TripleBlocks(m) <= multiset(s.live)
    ensures forall j :: x <= j < x + |Rest(m.s0, x)| ==> Word(s.img[r.single], j) == Rest(m.s0, x)[j - x]
  {
    hide Word, DoubleBlocks, TripleBlocks;
    SingleShape(s, r, m, DIRECT + x);
    SingleRoom(s.live, m, x);
    SingleEntries(s.img, m, r.single, x);
  }

  lemma SingleEntries(img: Image, m: BlockMap, p: int, x: int)
    requires Pack(img, m.s1, m.s0) && Tail(img, m.s1, m.s0) && m.s1 == [p] && InData(p) && 0 <= x <= |m.s0|
    ensures forall j :: x <= j < |m.s0| ==> j < N && Word(img[p], j) == Rest(m.s0, x)[j - x]
  {
    forall j | x <= j < |m.s0|
      ensures j < N && Word(img[p], j) == Rest(m.s0, x)[j - x]
    {
      SingleWords(img, m, p, j);
    }
  }

  lemma DeepWith(s: Store, r: Record, m: BlockMap, s': Store)
    requires WellFormed(s, r, m) && m.s1 == [r.single] && InData(r.single)
    ensures DeepTrees(With(s, r.single, s').img, r, m, r.blocks - DIRECT)
    ensures With(s, r.single, s').live == s.live
  {
    hide Tree, Forest;
    DeepWalks(s, r, m);
    var img' := With(s, r.single, s').img;
    OnlyOne(s.live, m, r.single);
    hide Maps, Clean, Exclusive, Owned;
    if r.blocks - DIRECT > N {
      forall b | b in Tree(s.img, r.double, 2) && InData(b)
        ensures img'[b] == s.img[b]
      {
        assert b in DoubleBlocks(m);
      }
      TreeFrame(s.img, img', r.double, 2);
    }
    if r.blocks - DIRECT > N + N * N {
      forall b | b in Tree(s.img, r.triple, 3) && InData(b)
        ensures img'[b] == s.img[b]
      {
        assert b in TripleBlocks(m);
      }
      TreeFrame(s.img, img', r.triple, 3);
    }
  }

  /** The single block, which stays allocated to no use when the removal starts at its first entry. */
  function LostSingle(r: Record, start: int): multiset<int> {
    if start == DIRECT then multiset{r.single} else multiset{}
  }

  lemma SingleExcess(r: Record, m: BlockMap, start: int)
    requires m.s1 == [r.single] && |m.direct| == DIRECT && DIRECT <= start < DIRECT + N
    ensures Excess(m, start)
      == multiset(Rest(m.s0, start - DIRECT)) + DoubleBlocks(m) + TripleBlocks(m) + LostSingle(r, start)
    ensures Truncate(m, start)
      == EMPTY_MAP.(direct := m.direct, s0 := Cut(m.s0, start - DIRECT), s1 := if start == DIRECT then [] else m.s1)
  {
    hide Cut, Rest, Ceil, DoubleBlocks, TripleBlocks;
    var x := start - DIRECT;
    CeilsInSingle(x);
    KeptWhole(m.direct, start);
    GoneWhole(m.d0, x - N);
    GoneWhole(m.d1, 0);
    GoneWhole(m.d2, 0);
    GoneWhole(m.t0, x - N - N * N);
    GoneWhole(m.t1, 0);
    GoneWhole(m.t2, 0);
    GoneWhole(m.t3, 0);
    if x == 0 {
      GoneWhole(m.s1, 0);
    } else {
      KeptWhole(m.s1, 1);
    }
    assert multiset(Rest(m.s1, Ceil(x))) == LostSingle(r, start);
    SingleRegrouped(m, multiset(Rest(m.s0, x)), LostSingle(r, start));
  }

  lemma CeilsInSingle(x: int)
    requires 0 <= x < N
    ensures Ceil(x) == (if x == 0 then 0 else 1) && Ceil(x - N) == 0 && Ceil(x - N - N * N) == 0 && Ceil(0) == 0
  {
  }

  lemma SingleRegrouped(m: BlockMap, rest: multiset<int>, lost: multiset<int>)
    ensures multiset([]) + rest + lost + multiset(m.d0) + multiset(m.d1) + multiset(m.d2)
      + multiset(m.t0) + multiset(m.t1) + multiset(m.t2) + multiset(m.t3)
      == rest + DoubleBlocks(m) + TripleBlocks(m) + lost
  {
  }

  lemma SingleKept(s: Store, r: Record, m: BlockMap, x: int, s1: Store, s': Store)
    requires Exclusive(s.live, m) && m.s1 == [r.single] && SingleFreed(s, m, x, r.single, s1)
    requires Freed(With(s, r.single, s1), multiset(Rest(m.s0, x)) + DoubleBlocks(m) + TripleBlocks(m), s')
    ensures r.single in s'.live && s'.img[r.single] == s1.img[r.single]
    ensures multiset(s'.live) + (multiset(Rest(m.s0, x)) + DoubleBlocks(m) + TripleBlocks(m)) == multiset(s.live)
    ensures forall b :: 0 <= b < BLOCK_COUNT && b in s'.live && b != r.single ==> s'.img[b] == s.img[b]
  {
    SingleRoom(s.live, m, x);
    hide Exclusive, DoubleBlocks, TripleBlocks, Rest, ZeroedEntries;
    assert multiset(m.s1) == multiset{r.single};
    StillLive(With(s, r.single, s1), multiset(Rest(m.s0, x)) + DoubleBlocks(m) + TripleBlocks(m), s',
              multiset{r.single});
  }

  /** What is left of the single region: its first x blocks, and zeros after them. */
  lemma SingleTruncated(img: Image, img': Image, m: BlockMap, p: int, x: int)
    requires Pack(img, m.s1, m.s0) && Tail(img, m.s1, m.s0) && m.s1 == [p] && InData(p) && 0 <= x <= |m.s0|
    requires ZeroedEntries(img[p], img'[p], x, |m.s0|)
    ensures x > 0 ==> Pack(img', m.s1, Cut(m.s0, x))
    ensures x > 0 ==> Tail(img', m.s1, Cut(m.s0, x))
  {
    hide Word;
    forall j | 0 <= j < N
      ensures Word(img'[p], j) == if j < x then m.s0[j] else 0
    {
      SingleWords(img, m, p, j);
    }
  }

  lemma SingleDone(s: Store, r: Record, m: BlockMap, start: int, s1: Store, s': Store, r': Record)
    requires WellFormed(s, r, m) && DIRECT < r.blocks && DIRECT <= start <= r.blocks && start < DIRECT + N
    requires SingleFreed(s, m, start - DIRECT, r.single, s1)
    requires Freed(With(s, r.single, s1), multiset(Rest(m.s0, start - DIRECT)) + DoubleBlocks(m) + TripleBlocks(m), s')
    requires r' == r.(blocks := start, double := 0, triple := 0)
    ensures Removed(s, r, m, start, LostSingle(r, start), s', r')
    ensures Clean(s'.img, r', Truncate(m, start)) <==> start != DIRECT
  {
    hide Word, Excess, DoubleBlocks, TripleBlocks, Truncate, Rest, Tree, Forest, Pack, Tail, Exclusive, ZeroedEntries,
         With, Freed;
    SingleShape(s, r, m, start);
    SingleExcess(r, m, start);
    SingleKept(s, r, m, start - DIRECT, s1, s');
    SingleTruncated(s.img, s'.img, m, r.single, start - DIRECT);
    SingleMaps(s, r, m, start, s', r');
    hide WellFormed, Clean, Maps;
  }

  lemma SingleMaps(s: Store, r: Record, m: BlockMap, start: int, s': Store, r': Record)
    requires WellFormed(s, r, m) && DIRECT < r.blocks && DIRECT <= start <= r.blocks && start < DIRECT + N
    requires start > DIRECT ==>
      Pack(s'.img, m.s1, Cut(m.s0, start - DIRECT)) && Tail(s'.img, m.s1, Cut(m.s0, start - DIRECT))
    requires r' == r.(blocks := start, double := 0, triple := 0)
    ensures |m.direct| == DIRECT
    ensures var m' := EMPTY_MAP.(direct := m.direct, s0 := Cut(m.s0, start - DIRECT),
                                 s1 := if start == DIRECT then [] else m.s1);
      Maps(s'.img, r', m') && (Clean(s'.img, r', m') <==> start != DIRECT)
  {
    hide Word, Exclusive;
  }

  method RemoveFromSingle(disk: Disk, node: Inode, start: int, ghost m: BlockMap) returns (ok: bool)
    requires disk.Valid() && WellFormed(disk.Now(), node.Rec(), m)
    requires DIRECT <= start <= node.blocks && start < DIRECT + N
    modifies disk, disk.mem, node
    ensures disk.Valid()
    ensures ok <==> old(node.blocks) > DIRECT
    ensures !ok ==> disk.Now() == old(disk.Now()) && node.Rec() == old(node.Rec())
    ensures ok ==>
      Removed(old(disk.Now()), old(node.Rec()), m, start, LostSingle(old(node.Rec()), start), disk.Now(), node.Rec())
    ensures ok ==> (Clean(disk.img, node.Rec(), Truncate(m, start)) <==> start != DIRECT)
  {
    hide disk.Valid, WellFormed, Freed, Tree, Forest, DoubleBlocks, TripleBlocks, Truncate, Removed, Clean, Rest,
         DeepTrees, ZeroedEntries, With;
    ghost var s, r := disk.Now(), node.Rec();
    SingleShape(s, r, m, start);
    if node.single == 0 {
      return false;
    }
    SingleReady(s, r, m, start - DIRECT);
    FreeSingle(disk, node, start - DIRECT, m);
    ghost var s1 := disk.Now();
    DeepWith(s, r, m, s1);
    ok := RemoveDoubleAndTriple(disk, node, start, node.blocks - DIRECT, With(s, r.single, s1),
                                multiset(Rest(m.s0, start - DIRECT)), m);
    SingleDone(s, r, m, start, s1, disk.Now(), node.Rec());
  }
}
