/** Freeing a whole index tree (src/inode.cpp, remove_datablocks_nested). */
module TreeWalk {
  import opened Geometry
  import opened Words
  import opened LayerZero
  import opened DataBlocks
  import opened BlockMaps

  // ----- which blocks the walk meets -----

  /** The entries of an index block, from the i-th up to the first zero. */
  ghost function Entries(block: Block, i: nat): seq<int>
    decreases N - i
  {
    if i >= N || Word(block, i) == 0 then [] else [Word(block, i)] + Entries(block, i + 1)
  }

  /** The blocks of the tree below p, `level` index levels deep, in the order the walk frees them. */
  ghost function Tree(img: Image, p: int, level: nat): seq<int>
    decreases level, 0, 0
  {
    if level == 0 || !InData(p) then [p]
    else Forest(img, Entries(img[p], 0), level - 1) + [p]
  }

  ghost function Forest(img: Image, roots: seq<int>, level: nat): seq<int>
    decreases level, 1, |roots|
  {
    if roots == [] then []
    else Forest(img, roots[..|roots| - 1], level) + Tree(img, roots[|roots| - 1], level)
  }

  /** Blocks still live hold what they held. */
  ghost predicate Kept(img: Image, img': Image, live': set<int>) {
    forall b :: 0 <= b < BLOCK_COUNT && b in live' ==> img'[b] == img[b]
  }

  /** Exactly the blocks of `freed` were given back, each once, and nothing else was touched. */
  ghost predicate Freed(s: Store, freed: multiset<int>, s': Store) {
    && multiset(s'.live) + freed == multiset(s.live)
    && Kept(s.img, s'.img, s'.live)
  }

  lemma FreedChain(s: Store, f: multiset<int>, s1: Store, f1: multiset<int>, s2: Store)
    requires Freed(s, f, s1) && Freed(s1, f1, s2)
    ensures Freed(s, f + f1, s2)
    ensures s2.live <= s1.live <= s.live
  {
    forall b | b in s2.live
      ensures b in s1.live
    {
      assert multiset(s2.live)[b] + f1[b] == multiset(s1.live)[b];
    }
    forall b | b in s1.live
      ensures b in s.live
    {
      assert multiset(s1.live)[b] + f[b] == multiset(s.live)[b];
    }
  }

  lemma EntriesAre(block: Block, i: nat)
    requires i <= N
    ensures var e := Entries(block, i);
      && i + |e| <= N
      && (forall j :: 0 <= j < |e| ==> e[j] == Word(block, i + j) && e[j] != 0)
      && (i + |e| < N ==> Word(block, i + |e|) == 0)
    decreases N - i
  {
    if i < N && Word(block, i) != 0 {
      EntriesAre(block, i + 1);
    }
  }

  lemma {:induction false} ForestConcat(img: Image, a: seq<int>, b: seq<int>, level: nat)
    ensures Forest(img, a + b, level) == Forest(img, a, level) + Forest(img, b, level)
    decreases |b|
  {
    hide Tree;
    if b == [] {
      assert a + b == a;
    } else {
      var n := |b| - 1;
      var ab := a + b;
      assert ab[..|ab| - 1] == a + b[..n] && ab[|ab| - 1] == b[n];
      ForestConcat(img, a, b[..n], level);
      var last := Tree(img, b[n], level);
      assert Forest(img, ab, level) == Forest(img, a, level) + Forest(img, b[..n], level) + last;
      assert Forest(img, b, level) == Forest(img, b[..n], level) + last;
    }
  }

  lemma ForestOne(img: Image, p: int, level: nat)
    ensures Forest(img, [p], level) == Tree(img, p, level)
  {
    assert [p][..0] == [];
  }

  lemma {:induction false} ForestOfLeaves(img: Image, roots: seq<int>)
    ensures Forest(img, roots, 0) == roots
  {
    if roots != [] {
      ForestOfLeaves(img, roots[..|roots| - 1]);
    }
  }

  /** The walk reads only blocks it is about to free. */
  lemma {:induction false} TreeFrame(img: Image, img': Image, p: int, level: nat)
    requires forall b :: b in Tree(img, p, level) && InData(b) ==> img'[b] == img[b]
    ensures Tree(img', p, level) == Tree(img, p, level)
    decreases level, 0, 0
  {
    if level > 0 && InData(p) {
      var below := Forest(img, Entries(img[p], 0), level - 1);
      assert Tree(img, p, level) == below + [p];
      assert p in Tree(img, p, level) && forall b :: b in below ==> b in Tree(img, p, level);
      ForestFrame(img, img', Entries(img[p], 0), level - 1);
    }
  }

  lemma {:induction false} ForestFrame(img: Image, img': Image, roots: seq<int>, level: nat)
    requires forall b :: b in Forest(img, roots, level) && InData(b) ==> img'[b] == img[b]
    ensures Forest(img', roots, level) == Forest(img, roots, level)
    decreases level, 1, |roots|
  {
    if roots != [] {
      hide Tree;
      ForestFrame(img, img', roots[..|roots| - 1], level);
      TreeFrame(img, img', roots[|roots| - 1], level);
    }
  }

  // ----- the walk over packed layers -----

  lemma EntriesUnique(block: Block, i: nat, share: seq<int>)
    requires i + |share| <= N
    requires forall j :: 0 <= j < |share| ==> share[j] == Word(block, i + j) && share[j] != 0
    requires i + |share| < N ==> Word(block, i + |share|) == 0
    ensures Entries(block, i) == share
    decreases |share|
  {
    hide Word;
    if share != [] {
      assert share[0] == Word(block, i + 0);
      forall j | 0 <= j < |share[1..]|
        ensures share[1..][j] == Word(block, i + 1 + j) && share[1..][j] != 0
      {
        assert share[1..][j] == share[j + 1] == Word(block, i + (j + 1));
      }
      EntriesUnique(block, i + 1, share[1..]);
    }
  }

  /** In a packed and zero-ended layer, the entries of each parent are its share of the children. */
  lemma EntriesOfParent(img: Image, parents: seq<int>, children: seq<int>, i: int)
    requires Pack(img, parents, children) && Tail(img, parents, children) && 0 <= i < |parents|
    ensures i * N <= |children|
    ensures Entries(img[parents[i]], 0)
      == if (i + 1) * N <= |children| then children[i * N..(i + 1) * N] else children[i * N..]
  {
    hide Word;
    var share := if (i + 1) * N <= |children| then children[i * N..(i + 1) * N] else children[i * N..];
    forall j | 0 <= j < |share|
      ensures share[j] == Word(img[parents[i]], 0 + j) && share[j] != 0
    {
      assert share[j] == children[i * N + j];
    }
    EntriesUnique(img[parents[i]], 0, share);
  }

  lemma ForestOfNone(img: Image, level: nat)
    ensures Forest(img, [], level) == []
  {
  }

  /** One layer of the walk: the parents, and whatever lies below their children. */
  lemma {:induction false} LayerWalk(img: Image, parents: seq<int>, children: seq<int>, level: nat)
    requires Pack(img, parents, children) && Tail(img, parents, children)
    ensures multiset(Forest(img, parents, level + 1)) == multiset(parents) + multiset(Forest(img, children, level))
    decreases |parents|
  {
    hide Forest, Tree, Entries, Word;
    if parents == [] {
      assert children == [];
      ForestOfNone(img, level);
      ForestOfNone(img, level + 1);
    } else {
      var n := |parents| - 1;
      var before, last := children[..n * N], children[n * N..];
      LastParent(img, parents, children, n);
      PackPrefix(img, parents, children, n);
      hide Pack, Tail;
      LayerWalk(img, parents[..n], before, level);
      LayerStep(img, parents, children, before, last, level);
    }
  }

  lemma LastParent(img: Image, parents: seq<int>, children: seq<int>, n: nat)
    requires Pack(img, parents, children) && Tail(img, parents, children) && n == |parents| - 1
    ensures n * N <= |children| && InData(parents[n]) && Entries(img[parents[n]], 0) == children[n * N..]
    ensures children == children[..n * N] + children[n * N..]
  {
    hide Entries, Word;
    EntriesOfParent(img, parents, children, n);
  }

  lemma PackPrefix(img: Image, parents: seq<int>, children: seq<int>, n: nat)
    requires Pack(img, parents, children) && n * N <= |children|
    ensures n <= |parents| && Pack(img, parents[..n], children[..n * N]) && Tail(img, parents[..n], children[..n * N])
  {
    hide Word;
  }

  lemma TreeIs(img: Image, p: int, level: nat)
    requires InData(p) && level > 0
    ensures Tree(img, p, level) == Forest(img, Entries(img[p], 0), level - 1) + [p]
  {
  }

  lemma ForestIs(img: Image, roots: seq<int>, level: nat)
    requires roots != []
    ensures Forest(img, roots, level) == Forest(img, roots[..|roots| - 1], level) + Tree(img, roots[|roots| - 1], level)
  {
  }

  lemma LayerStep(img: Image, parents: seq<int>, children: seq<int>, before: seq<int>, last: seq<int>, level: nat)
    requires children == before + last
    requires parents != [] && InData(parents[|parents| - 1])
    requires Entries(img[parents[|parents| - 1]], 0) == last
    requires multiset(Forest(img, parents[..|parents| - 1], level + 1))
      == multiset(parents[..|parents| - 1]) + multiset(Forest(img, before, level))
    ensures multiset(Forest(img, parents, level + 1)) == multiset(parents) + multiset(Forest(img, children, level))
  {
    hide Forest, Tree, Entries;
    var n := |parents| - 1;
    ForestConcat(img, before, last, level);
    var below := Forest(img, last, level);
    TreeIs(img, parents[n], level + 1);
    ForestIs(img, parents, level + 1);
    assert parents == parents[..n] + [parents[n]];
  }

  lemma WalkOfSingle(img: Image, m: BlockMap, pointer: int, level: nat)
    requires level == 1
    requires Root(pointer, m.s1) && Pack(img, m.s1, m.s0) && Tail(img, m.s1, m.s0) && m.s0 != []
    ensures InData(pointer)
    ensures multiset(Tree(img, pointer, level)) == multiset(m.s1) + multiset(m.s0)
  {
    assert m.s1 == [pointer];
    LayerWalk(img, m.s1, m.s0, level - 1);
    ForestOfLeaves(img, m.s0);
    ForestOne(img, pointer, level);
  }

  lemma WalkOfDouble(img: Image, m: BlockMap, pointer: int, level: nat)
    requires level == 2
    requires Root(pointer, m.d2) && Pack(img, m.d2, m.d1) && Pack(img, m.d1, m.d0) && m.d0 != []
    requires Tail(img, m.d2, m.d1) && Tail(img, m.d1, m.d0)
    ensures InData(pointer)
    ensures multiset(Tree(img, pointer, level)) == multiset(m.d2) + (multiset(m.d1) + multiset(m.d0))
  {
    hide Forest, Tree, Entries, Word;
    assert m.d2 == [pointer] && InData(pointer);
    LayerWalk(img, m.d2, m.d1, level - 1);
    LayerWalk(img, m.d1, m.d0, level - 2);
    hide Pack, Tail;
    ForestOfLeaves(img, m.d0);
    ForestOne(img, pointer, level);
  }

  lemma WalkOfTriple(img: Image, m: BlockMap, pointer: int, level: nat)
    requires level == 3
    requires Root(pointer, m.t3) && Pack(img, m.t3, m.t2) && Pack(img, m.t2, m.t1) && Pack(img, m.t1, m.t0)
    requires m.t0 != []
    requires Tail(img, m.t3, m.t2) && Tail(img, m.t2, m.t1) && Tail(img, m.t1, m.t0)
    ensures InData(pointer)
    ensures multiset(Tree(img, pointer, level)) == multiset(m.t3) + (multiset(m.t2) + (multiset(m.t1) + multiset(m.t0)))
  {
    hide Forest, Tree, Entries, Word;
    assert m.t3 == [pointer] && InData(pointer);
    LayerWalk(img, m.t3, m.t2, level - 1);
    LayerWalk(img, m.t2, m.t1, level - 2);
    LayerWalk(img, m.t1, m.t0, level - 3);
    hide Pack, Tail;
    ForestOfLeaves(img, m.t0);
    ForestOne(img, pointer, level);
  }

  // ----- the walk itself -----

  lemma FreedOne(disk: Store, b: int, disk': Store)
    requires b in disk.live && disk'.live == disk.live - {b}
    requires 0 <= b < BLOCK_COUNT && disk'.img == disk.img[b := disk'.img[b]]
    ensures Freed(disk, multiset{b}, disk')
  {
  }

  /** The part of the walk still to come is untouched by the part done. */
  lemma NextTree(s: Store, s1: Store, roots: seq<int>, i: nat, p: int, level: nat)
    requires i < |roots| && multiset(Forest(s.img, roots, level) + [p]) <= multiset(s.live)
    requires Freed(s, multiset(Forest(s.img, roots[..i], level)), s1)
    ensures Tree(s1.img, roots[i], level) == Tree(s.img, roots[i], level)
    ensures multiset(Tree(s.img, roots[i], level)) <= multiset(s1.live)
    ensures multiset(Forest(s.img, roots[..i + 1], level))
      == multiset(Forest(s.img, roots[..i], level)) + multiset(Tree(s.img, roots[i], level))
  {
    hide Tree, Forest;
    var done, here := Forest(s.img, roots[..i], level), Tree(s.img, roots[i], level);
    var rest := Forest(s.img, roots[i + 1..], level);
    assert roots[..i + 1] == roots[..i] + [roots[i]];
    assert roots == roots[..i + 1] + roots[i + 1..];
    ForestConcat(s.img, roots[..i], [roots[i]], level);
    ForestOne(s.img, roots[i], level);
    ForestConcat(s.img, roots[..i + 1], roots[i + 1..], level);
    NextLive(s, s1, done, here, rest, p);
    TreeFrame(s.img, s1.img, roots[i], level);
  }

  lemma NextLive(s: Store, s1: Store, done: seq<int>, here: seq<int>, rest: seq<int>, p: int)
    requires multiset(done + here + rest + [p]) <= multiset(s.live)
    requires Freed(s, multiset(done), s1)
    ensures multiset(here) <= multiset(s1.live)
    ensures forall b :: b in here && InData(b) ==> s1.img[b] == s.img[b]
  {
    forall b
      ensures multiset(here)[b] <= multiset(s1.live)[b]
    {
      assert multiset(done + here + rest + [p])[b]
        == multiset(done)[b] + multiset(here)[b] + multiset(rest)[b] + multiset{p}[b];
      assert multiset(done + here + rest + [p])[b] <= multiset(s.live)[b];
      assert multiset(s1.live)[b] + multiset(done)[b] == multiset(s.live)[b];
    }
    forall b | b in here && InData(b)
      ensures s1.img[b] == s.img[b]
    {
      assert multiset(here)[b] <= multiset(s1.live)[b];
    }
  }

  lemma WalkBegins(s: Store, p: int, level: nat)
    requires InData(p) && level > 0
    ensures var roots := Entries(s.img[p], 0);
      && Tree(s.img, p, level) == Forest(s.img, roots, level - 1) + [p]
      && multiset(Tree(s.img, p, level)) == multiset(Forest(s.img, roots, level - 1)) + multiset{p}
      && Freed(s, multiset(Forest(s.img, roots[..0], level - 1)), s)
  {
    ForestOfNone(s.img, level - 1);
    hide Forest, Entries;
  }

  /** Gives back one block that is in use. */
  method FreeLive(disk: Disk, b: int) returns (ok: bool)
    requires disk.Valid() && b in disk.live
    modifies disk, disk.mem
    ensures ok && disk.Valid()
    ensures Freed(old(disk.Now()), multiset{b}, disk.Now())
  {
    LiveInData(disk, b);
    ghost var s := disk.Now();
    ok := FreeDataBlock(disk, b);
    FreedOne(s, b, disk.Now());
  }

  /** What the loop does with one entry: a data block is freed, an index block walked. */
  method RemoveEntry(disk: Disk, entry: int, below: nat)
    requires disk.Valid() && multiset(Tree(disk.img, entry, below)) <= multiset(disk.live)
    modifies disk, disk.mem
    ensures disk.Valid()
    ensures Freed(old(disk.Now()), multiset(Tree(old(disk.img), entry, below)), disk.Now())
    decreases below, 1
  {
    RootInTree(disk.img, disk.live, entry, below);
    LiveInData(disk, entry);
    if below == 0 {
      LeafTree(disk.img, entry, below);
      var _ := FreeLive(disk, entry);
    } else {
      var _ := RemoveDatablocksNested(disk, entry, below);
    }
  }

  lemma LeafTree(img: Image, p: int, level: nat)
    requires level == 0
    ensures Tree(img, p, level) == [p]
  {
  }

  lemma RootInTree(img: Image, live: set<int>, p: int, level: nat)
    requires multiset(Tree(img, p, level)) <= multiset(live)
    ensures p in live
  {
    var t := Tree(img, p, level);
    assert t[|t| - 1] == p;
    assert multiset(t)[p] <= multiset(live)[p];
  }

  lemma RootStillLive(s: Store, s1: Store, below: multiset<int>, p: int)
    requires below + multiset{p} <= multiset(s.live) && Freed(s, below, s1)
    ensures p in s1.live
  {
    assert multiset(s1.live)[p] + below[p] == multiset(s.live)[p] >= (below + multiset{p})[p];
  }

  /** Frees the whole tree below p, reading each index block before its blocks are overwritten by links. */
  method RemoveDatablocksNested(disk: Disk, p: int, level: nat) returns (ok: bool)
    requires disk.Valid() && level > 0
    requires p > 0 ==> InData(p) && multiset(Tree(disk.img, p, level)) <= multiset(disk.live)
    modifies disk, disk.mem
    ensures disk.Valid()
    ensures ok <==> p > 0
    ensures !ok ==> disk.Now() == old(disk.Now())
    ensures ok ==> Freed(old(disk.Now()), multiset(Tree(old(disk.img), p, level)), disk.Now())
    decreases level, 0
  {
    hide Forest, Tree, Entries, disk.Valid, Word, Freed;
    if p <= 0 {
      return false;
    }
    ghost var s0 := disk.Now();
    var buffer := ReadDataBlock(disk, p);
    ghost var roots := Entries(buffer.value, 0);
    EntriesAre(buffer.value, 0);
    WalkBegins(s0, p, level);
    var i := 0;
    while i < N
      invariant 0 <= i <= |roots|
      invariant disk.Valid()
      invariant Freed(s0, multiset(Forest(s0.img, roots[..i], level - 1)), disk.Now())
      decreases N - i
    {
      var entry := Word(buffer.value, i);
      assert i < |roots| ==> roots[i] == Word(buffer.value, 0 + i);
      if entry == 0 {
        break;
      }
      ghost var s1 := disk.Now();
      NextTree(s0, s1, roots, i, p, level - 1);
      RemoveEntry(disk, entry, level - 1);
      FreedChain(s0, multiset(Forest(s0.img, roots[..i], level - 1)), s1, multiset(Tree(s0.img, entry, level - 1)),
                 disk.Now());
      i := i + 1;
    }
    ghost var s2 := disk.Now();
    assert roots[..i] == roots;
    RootStillLive(s0, s2, multiset(Forest(s0.img, roots, level - 1)), p);
    var _ := FreeLive(disk, p);
    FreedChain(s0, multiset(Forest(s0.img, roots, level - 1)), s2, multiset{p}, disk.Now());
    ok := true;
  }

  // ----- freeing part of an index block -----

  lemma StillLive(s: Store, f: multiset<int>, s1: Store, rest: multiset<int>)
    requires Freed(s, f, s1) && f + rest <= multiset(s.live)
    ensures rest <= multiset(s1.live)
    ensures forall b :: b in rest ==> b in s1.live
  {
    forall b
      ensures rest[b] <= multiset(s1.live)[b]
    {
      assert (f + rest)[b] <= multiset(s.live)[b] == multiset(s1.live)[b] + f[b];
    }
  }

  lemma FreedMore(s: Store, f: multiset<int>, s1: Store, g: multiset<int>, s2: Store)
    requires Freed(s, f, s1) && Freed(s1, g, s2)
    ensures Freed(s, f + g, s2)
  {
    FreedChain(s, f, s1, g, s2);
  }

  lemma Nothing(s: Store)
    ensures Freed(s, multiset{}, s)
  {
  }

  /** Entries x up to i of a block buffer have been zeroed. */
  ghost predicate ZeroedEntries(before: Block, after: Block, x: int, i: int) {
    forall j :: 0 <= j < N ==> Word(after, j) == if x <= j < i then 0 else Word(before, j)
  }

  lemma ZeroEntry(before: Block, after: Block, x: int, i: int)
    requires ZeroedEntries(before, after, x, i) && 0 <= x <= i < N
    ensures ZeroedEntries(before, PutWord(after, i, 0), x, i + 1)
  {
    PutWordAll(after, i, 0);
    hide Word, PutWord;
  }

  lemma NextEntry(s: Store, entries: seq<int>, i: int, s1: Store)
    requires multiset(entries) <= multiset(s.live) && 0 <= i < |entries|
    requires Freed(s, multiset(entries[..i]), s1)
    ensures entries[i] in s1.live
    ensures multiset(entries[..i + 1]) == multiset(entries[..i]) + multiset{entries[i]}
  {
    var here := multiset{entries[i]};
    assert entries[..i + 1] == entries[..i] + [entries[i]];
    assert entries == entries[..i + 1] + entries[i + 1..];
    assert multiset(entries) == (multiset(entries[..i]) + here) + multiset(entries[i + 1..]);
    StillLive(s, multiset(entries[..i]), s1, here);
  }

  /** Frees the entries of a buffered index block from x up to `ending`, zeroing them in the buffer. */
  method FreeEntries(disk: Disk, block: Block, x: int, ending: int, ghost entries: seq<int>)
    returns (j: int, buffer: Block)
    requires disk.Valid() && 0 <= x <= N && multiset(entries) <= multiset(disk.live)
    requires |entries| == (if ending <= x then 0 else if ending <= N then ending - x else N - x)
    requires forall j :: x <= j < x + |entries| ==> Word(block, j) == entries[j - x]
    modifies disk, disk.mem
    ensures disk.Valid()
    ensures j == x + |entries|
    ensures Freed(old(disk.Now()), multiset(entries), disk.Now())
    ensures ZeroedEntries(block, buffer, x, j)
  {
    hide disk.Valid, Freed, PutWord, Word;
    ghost var s := disk.Now();
    Nothing(s);
    j, buffer := x, block;
    while j < ending && j < N
      invariant x <= j <= x + |entries|
      invariant disk.Valid() && Freed(s, multiset(entries[..j - x]), disk.Now())
      invariant ZeroedEntries(block, buffer, x, j)
    {
      ghost var s1 := disk.Now();
      NextEntry(s, entries, j - x, s1);
      var _ := FreeLive(disk, Word(buffer, j));
      FreedMore(s, multiset(entries[..j - x]), s1, multiset{entries[j - x]}, disk.Now());
      ZeroEntry(block, buffer, x, j);
      buffer := PutWord(buffer, j, 0);
      j := j + 1;
    }
    assert entries[..j - x] == entries;
  }

  /** The store s, with the content of block p replaced by what it is in s'. */
  ghost function With(s: Store, p: int, s': Store): Store
    requires InData(p)
  {
    s.(img := s.img[p := s'.img[p]])
  }

  /** Rewriting a live block is the same as starting from a disk that already held the new content. */
  lemma Rewritten(s: Store, f: multiset<int>, s2: Store, p: int, block: Block, s': Store)
    requires Freed(s, f, s2) && InData(p)
    requires s'.live == s2.live && s'.img == s2.img[p := block]
    ensures Freed(With(s, p, s'), f, s')
    ensures s'.img[p] == block
  {
  }

  /** A block that is rewritten and then freed might as well not have been rewritten. */
  lemma RewrittenThenFreed(s: Store, f: multiset<int>, p: int, s1: Store, s2: Store)
    requires InData(p) && Freed(With(s, p, s1), f, s1) && Freed(s1, multiset{p}, s2)
    ensures Freed(s, f + multiset{p}, s2)
  {
    FreedChain(With(s, p, s1), f, s1, multiset{p}, s2);
    assert multiset(s2.live)[p] + multiset{p}[p] == multiset(s1.live)[p];
  }

  /** The entries of index block p were freed and zeroed; p itself was kept, or freed as well. */
  ghost predicate Emptied(s: Store, p: int, x: int, entries: seq<int>, whole: bool, s': Store) {
    && InData(p)
    && if whole then Freed(s, multiset(entries) + multiset{p}, s')
       else
         && Freed(With(s, p, s'), multiset(entries), s') && p in s'.live
         && ZeroedEntries(s.img[p], s'.img[p], x, x + |entries|)
  }

  lemma KeptLive(s: Store, entries: seq<int>, p: int, s2: Store)
    requires Freed(s, multiset(entries), s2) && multiset(entries) + multiset{p} <= multiset(s.live)
    ensures p in s2.live
  {
    StillLive(s, multiset(entries), s2, multiset{p});
  }

  /** Frees the entries of single block p from x up to `ending`, writes p back, and frees p too if `whole`. */
  method EmptySingle(disk: Disk, p: int, x: int, ending: int, whole: bool, ghost entries: seq<int>)
    returns (j: int)
    requires disk.Valid() && InData(p) && p in disk.live && 0 <= x <= N
    requires multiset(entries) + multiset{p} <= multiset(disk.live)
    requires |entries| == (if ending <= x then 0 else if ending <= N then ending - x else N - x)
    requires forall j :: x <= j < x + |entries| ==> Word(disk.img[p], j) == entries[j - x]
    modifies disk, disk.mem
    ensures disk.Valid()
    ensures j == x + |entries|
    ensures Emptied(old(disk.Now()), p, x, entries, whole, disk.Now())
  {
    hide disk.Valid, Freed, PutWord, Word, ZeroedEntries, With;
    ghost var s := disk.Now();
    assert multiset(entries) <= multiset(disk.live);
    var block := ReadDataBlock(disk, p);
    var buffer;
    j, buffer := FreeEntries(disk, block.value, x, ending, entries);
    ghost var s1 := disk.Now();
    KeptLive(s, entries, p, s1);
    var _ := WriteDataBlock(disk, p, buffer);
    ghost var s2 := disk.Now();
    Rewritten(s, multiset(entries), s1, p, buffer, s2);
    if whole {
      var _ := FreeLive(disk, p);
      RewrittenThenFreed(s, multiset(entries), p, s2, disk.Now());
    }
  }
}
