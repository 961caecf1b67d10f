/** What stale addresses do: a later walk over the whole tree meets blocks that are not in use any more. */
module StaleWalks {
  import opened Geometry
  import opened Words
  import opened LayerZero
  import opened Inodes
  import opened BlockMaps
  import opened TreeWalk
  import opened Removal
  import opened RemoveEarly
  import opened RemoveDouble
  import opened RemoveTriple
  import opened RangeRemoval

  // ----- what the walk meets -----

  lemma {:induction false} InForest(img: Image, roots: seq<int>, i: int, level: nat, b: int)
    requires 0 <= i < |roots| && b in Tree(img, roots[i], level)
    ensures b in Forest(img, roots, level)
    decreases |roots|
  {
    var n := |roots| - 1;
    hide Tree;
    if i < n {
      InForest(img, roots[..n], i, level, b);
    }
  }

  lemma RootMet(img: Image, p: int, level: nat)
    ensures p in Tree(img, p, level)
  {
    var t := Tree(img, p, level);
    assert t[|t| - 1] == p;
  }

  /** What is below an entry that the walk of p gets to is met by it. */
  lemma MetBelow(img: Image, p: int, j: int, level: nat, b: int)
    requires InData(p) && level > 0 && 0 <= j < |Entries(img[p], 0)|
    requires b in Tree(img, Entries(img[p], 0)[j], level - 1)
    ensures b in Tree(img, p, level)
  {
    InForest(img, Entries(img[p], 0), j, level - 1, b);
    assert Tree(img, p, level) == Forest(img, Entries(img[p], 0), level - 1) + [p];
  }

  /** The walk gets to every child, whatever comes after the last one. */
  lemma ChildMet(img: Image, parents: seq<int>, children: seq<int>, x: int)
    requires Pack(img, parents, children) && 0 <= x < |children|
    ensures x / N < |parents| && InData(parents[x / N])
    ensures x % N < |Entries(img[parents[x / N]], 0)| && Entries(img[parents[x / N]], 0)[x % N] == children[x]
  {
    hide Word, Entries;
    var i := x / N;
    var block := img[parents[i]];
    EntriesAre(block, 0);
    var e := Entries(block, 0);
    assert i * N + x % N == x;
    forall j | 0 <= j <= x % N
      ensures Word(block, j) == children[i * N + j] != 0
    {
    }
    assert e[x % N] == Word(block, 0 + x % N);
  }

  /** Child x of the layer is met by the walk of its parent. */
  lemma MetThrough(img: Image, parents: seq<int>, children: seq<int>, x: int, level: nat, b: int)
    requires Pack(img, parents, children) && 0 <= x < |children| && level > 0
    requires b in Tree(img, children[x], level - 1)
    ensures x / N < |parents| && b in Tree(img, parents[x / N], level)
  {
    hide Tree, Entries, Word;
    ChildMet(img, parents, children, x);
    MetBelow(img, parents[x / N], x % N, level, b);
  }

  // ----- after an exact removal -----

  /** The walks over the inode's double and triple trees meet only blocks in use. */
  ghost predicate WalksAreSound(s: Store, r: Record) {
    && (forall b :: b in Tree(s.img, r.double, 2) && r.double > 0 ==> b in s.live)
    && (forall b :: b in Tree(s.img, r.triple, 3) && r.triple > 0 ==> b in s.live)
  }

  lemma RestGone(s: Store, r: Record, m: BlockMap, start: int, s': Store, r': Record, b: int)
    requires Exclusive(s.live, m) && Removed(s, r, m, start, multiset{}, s', r') && b in Excess(m, start)
    ensures b !in s'.live
  {
    hide Maps, Truncate, Excess;
    Split(m, start);
    assert Owned(m)[b] <= multiset(s.live)[b] <= 1;
    assert (multiset(s'.live) + Excess(m, start))[b] == multiset(s.live)[b];
  }

  lemma InRest(s: seq<int>, n: int, i: int)
    requires 0 < n <= i < |s|
    ensures s[i] in Rest(s, n)
  {
    assert s[n..][i - n] == s[i];
  }

  /** What the removal of the rest of the double region finds and leaves. */
  lemma DoubleFacts(s: Store, r: Record, m: BlockMap, start: int)
    requires WellFormed(s, r, m) && DIRECT + N < start < DIRECT + N + N * N && start <= r.blocks
    ensures Maps(s.img, r, m) && Exclusive(s.live, m) && Pack(s.img, m.d2, m.d1) && AllInData(m.d1) && AllInData(m.d2)
    ensures |m.d2| == 1 && Truncate(m, start).d2 == m.d2
    ensures forall b :: b in Rest(m.d1, FirstWhole(start - DIRECT - N)) ==> b in Excess(m, start)
  {
    assert Removable(s, r, m, start);
    ShapeOf(s, r, m, start);
    DoubleExcess(m, start);
    hide Excess, Truncate, Pack, Removable, Cut, Rest, TripleBlocks, Clean;
  }

  /** The double block still leads to a single block that was freed. */
  lemma DoubleStale(s: Store, r: Record, m: BlockMap, start: int, s': Store, r': Record)
    requires WellFormed(s, r, m) && DIRECT + N < start < DIRECT + N + N * N && start <= r.blocks
    requires Removed(s, r, m, start, multiset{}, s', r') && UpperKept(s.img, s'.img, Truncate(m, start))
    requires FirstWhole(start - DIRECT - N) < |m.d1|
    ensures !WalksAreSound(s', r')
  {
    hide Word, Tree, Entries, Excess, Truncate, WellFormed, Pack, Exclusive, Rest;
    var c := FirstWhole(start - DIRECT - N);
    DoubleFacts(s, r, m, start);
    assert r'.double == m.d2[0];
    PackFrame(s.img, s'.img, m.d2, m.d1);
    RootMet(s'.img, m.d1[c], 1);
    MetThrough(s'.img, m.d2, m.d1, c, 2, m.d1[c]);
    InRest(m.d1, c, c);
    RestGone(s, r, m, start, s', r', m.d1[c]);
    PackParents(s'.img, m.d2, m.d1);
  }

  lemma PackParents(img: Image, parents: seq<int>, children: seq<int>)
    requires Pack(img, parents, children)
    ensures AllInData(parents)
  {
  }

  /** What the removal of the rest of the triple region finds and leaves. */
  lemma TripleFacts(s: Store, r: Record, m: BlockMap, start: int)
    requires WellFormed(s, r, m) && DIRECT + N + N * N < start <= r.blocks && start < MAX_BLOCKS
    ensures var y := start - DIRECT - N - N * N;
      var c := FirstWhole(y);
      && Maps(s.img, r, m) && Exclusive(s.live, m) && Pack(s.img, m.t3, m.t2) && Pack(s.img, m.t2, m.t1)
      && |m.t2| <= N && AllInData(m.t3)
      && |m.t3| == 1 && Truncate(m, start).t3 == m.t3 && Truncate(m, start).t2 == Cut(m.t2, Ceil(c)) && 0 < c
      && (forall b :: b in Rest(m.t1, c) ==> b in Excess(m, start))
      && (forall b :: b in Rest(m.t2, Ceil(c)) ==> b in Excess(m, start))
  {
    hide Clean, Word, Exclusive;
    assert m.t0 != [] by {
      MapShape(s.img, r, m);
    }
    assert Reachable3(s, r, m, start);
    TripleShape(s, r, m, start);
    TripleExcess(m, start);
    hide Excess, Truncate, Pack, Reachable3, Region3, Cut, Rest, WellFormed;
  }

  /** A double block, or the triple block, still leads to a block that was freed. */
  lemma TripleStale(s: Store, r: Record, m: BlockMap, start: int, s': Store, r': Record)
    requires WellFormed(s, r, m) && DIRECT + N + N * N < start <= r.blocks && start < MAX_BLOCKS
    requires Removed(s, r, m, start, multiset{}, s', r') && UpperKept(s.img, s'.img, Truncate(m, start))
    requires FirstWhole(start - DIRECT - N - N * N) < |m.t1|
    ensures !WalksAreSound(s', r')
  {
    hide Word, Tree, Entries, Excess, Truncate, WellFormed, Pack, Exclusive, Rest, Cut;
    var c := FirstWhole(start - DIRECT - N - N * N);
    TripleFacts(s, r, m, start);
    assert r'.triple == m.t3[0];
    PackFrame(s.img, s'.img, m.t3, m.t2);
    PackParents(s'.img, m.t3, m.t2);
    if c % N == 0 {
      Sizes(s.img, m.t2, m.t1, c);
      RootMet(s'.img, m.t2[c / N], 2);
      MetThrough(s'.img, m.t3, m.t2, c / N, 3, m.t2[c / N]);
      InRest(m.t2, c / N, c / N);
      RestGone(s, r, m, start, s', r', m.t2[c / N]);
    } else {
      KeptParent(s.img, s'.img, m.t2, m.t1, c);
      RootMet(s'.img, m.t1[c], 1);
      MetOne(s.img, s'.img, m.t2, m.t1, c);
      MetThrough(s'.img, m.t3, m.t2, c / N, 3, m.t1[c]);
      InRest(m.t1, c, c);
      RestGone(s, r, m, start, s', r', m.t1[c]);
    }
  }

  lemma KeptParent(img: Image, img': Image, parents: seq<int>, children: seq<int>, c: int)
    requires Pack(img, parents, children) && 0 < c < |children| && c % N != 0
    requires Same(img, img', Cut(parents, Ceil(c)))
    ensures c / N < |parents| && InData(parents[c / N]) && img'[parents[c / N]] == img[parents[c / N]]
  {
    hide Word;
    assert Ceil(c) == c / N + 1 <= |parents|;
    CutIs(parents, Ceil(c));
    assert parents[..Ceil(c)][c / N] == parents[c / N];
  }

  lemma Sizes(img: Image, parents: seq<int>, children: seq<int>, c: int)
    requires Pack(img, parents, children) && 0 < c < |children|
    ensures c / N < |parents| && (c % N == 0 ==> Ceil(c) == c / N > 0)
  {
  }

  /** Child c is met by the walk of its parent, if the parent's block is the same. */
  lemma MetOne(img: Image, img': Image, parents: seq<int>, children: seq<int>, c: int)
    requires Pack(img, parents, children) && 0 <= c < |children|
    requires c / N < |parents| && InData(parents[c / N]) ==> img'[parents[c / N]] == img[parents[c / N]]
    ensures c / N < |parents| && children[c] in Tree(img', parents[c / N], 2)
  {
    hide Tree, Entries, Word;
    ChildMet(img, parents, children, c);
    RootMet(img', children[c], 1);
    MetBelow(img', parents[c / N], c % N, 2, children[c]);
  }

  /** A clean inode's walks meet only its own blocks. */
  lemma CleanWalks(s: Store, r: Record, m: BlockMap, start: int, s': Store, r': Record)
    requires Exclusive(s.live, m) && Removed(s, r, m, start, multiset{}, s', r')
    requires Clean(s'.img, r', Truncate(m, start))
    ensures WalksAreSound(s', r')
  {
    hide Truncate, Excess, Exclusive, Removed, Clean, Maps, Tree, Owned, DoubleBlocks, TripleBlocks;
    var m' := Truncate(m, start);
    KeptOwned(s, r, m, start, s', r');
    DeepWalks(s', r', m');
    hide WellFormed;
    forall b | b in Tree(s'.img, r'.double, 2) && r'.double > 0
      ensures b in s'.live
    {
      assert b in multiset(Tree(s'.img, r'.double, 2));
      TreeOwned(m', b);
    }
    forall b | b in Tree(s'.img, r'.triple, 3) && r'.triple > 0
      ensures b in s'.live
    {
      assert b in multiset(Tree(s'.img, r'.triple, 3));
      TreeOwned(m', b);
    }
  }

  lemma TreeOwned(m: BlockMap, b: int)
    requires b in DoubleBlocks(m) || b in TripleBlocks(m)
    ensures b in Owned(m)
  {
  }

  /** What an exact removal keeps is still in use. */
  lemma KeptOwned(s: Store, r: Record, m: BlockMap, start: int, s': Store, r': Record)
    requires Exclusive(s.live, m) && Removed(s, r, m, start, multiset{}, s', r')
    ensures Exclusive(s'.live, Truncate(m, start)) && Maps(s'.img, r', Truncate(m, start))
    ensures forall b :: b in Owned(Truncate(m, start)) ==> b in s'.live
  {
    hide Maps, Truncate, Excess;
    Split(m, start);
    var kept, excess := Owned(Truncate(m, start)), Excess(m, start);
    forall b
      ensures kept[b] <= multiset(s'.live)[b]
    {
      assert Owned(m)[b] == kept[b] + excess[b] <= multiset(s.live)[b];
      assert (multiset(s'.live) + excess)[b] == multiset(s.live)[b];
    }
  }

  /** After an exact removal from a well-formed inode, later walks are sound exactly when it left only zeros. */
  lemma WalksSoundWhen(s: Store, r: Record, m: BlockMap, start: int, s': Store, r': Record)
    requires WellFormed(s, r, m) && 0 <= start <= r.blocks && Exact(m, start)
    requires Removed(s, r, m, start, multiset{}, s', r') && UpperKept(s.img, s'.img, Truncate(m, start))
    requires Clean(s'.img, r', Truncate(m, start)) <==> LeavesZeros(m, start)
    ensures WalksAreSound(s', r') <==> LeavesZeros(m, start)
  {
    WellFormedOwns(s, r, m);
    hide Word, Tree, Entries, Excess, Truncate, WellFormed, Exclusive, Removed, UpperKept, Clean, WalksAreSound,
         FirstWhole, Exact, LeavesZeros;
    if LeavesZeros(m, start) {
      CleanWalks(s, r, m, start, s', r');
    } else {
      StaleMeans(s, r, m, start);
      if start < DIRECT + N + N * N {
        DoubleStale(s, r, m, start, s', r');
      } else {
        TripleStale(s, r, m, start, s', r');
      }
    }
  }

  lemma WellFormedOwns(s: Store, r: Record, m: BlockMap)
    requires WellFormed(s, r, m)
    ensures Exclusive(s.live, m)
  {
  }

  lemma StaleMeans(s: Store, r: Record, m: BlockMap, start: int)
    requires WellFormed(s, r, m) && 0 <= start <= r.blocks && Exact(m, start) && !LeavesZeros(m, start)
    ensures start < MAX_BLOCKS && DIRECT + N < start && start != DIRECT + N + N * N
    ensures start < DIRECT + N + N * N ==> FirstWhole(start - DIRECT - N) < |m.d1|
    ensures start > DIRECT + N + N * N ==> FirstWhole(start - DIRECT - N - N * N) < |m.t1|
  {
    MapShape(s.img, r, m);
    hide Word, Clean, Exclusive, Direct, Aligned;
  }
}
