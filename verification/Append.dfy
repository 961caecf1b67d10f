/** Appending a data block to an inode (src/inode.cpp, add_datablock_to_inode). */
module Append {
  import opened Geometry
  import opened Words
  import opened FreeList
  import opened LayerZero
  import opened DataBlocks
  import opened Inodes
  import opened BlockMaps

  /** How many index blocks the append at logical block n has to allocate. */
  function IndexBlocksFor(n: int): int {
    if n < DIRECT then 0
    else if n < DIRECT + N then (if n == DIRECT then 1 else 0)
    else if n < DIRECT + N + N * N then
      var x := n - DIRECT - N;
      if x == 0 then 2 else if x % N == 0 then 1 else 0
    else
      var x := n - DIRECT - N - N * N;
      if x == 0 then 3 else if x % (N * N) == 0 then 2 else if x % N == 0 then 1 else 0
  }

  /** Block b is live and free to be added to the inode. */
  ghost predicate Ready(s: Store, r: Record, m: BlockMap, b: int) {
    && Maps(s.img, r, m) && Exclusive(s.live, m)
    && InData(b) && b in s.live && b !in Owned(m)
  }

  /** The blocks that became live are exactly the ones the map gained besides b. */
  ghost predicate Accounted(s: Store, m: BlockMap, b: int, s': Store, m': BlockMap) {
    && multiset(s'.live) + Owned(m) + multiset{b} == multiset(s.live) + Owned(m')
    && s.live <= s'.live
    && m'.IndexCount() == m.IndexCount() + IndexBlocksFor(|m.Data()|)
  }

  /** The mapping gained block b at its end, and the slots past the end stay zero. */
  ghost predicate Remapped(s: Store, r: Record, m: BlockMap, b: int, s': Store, r': Record, m': BlockMap) {
    && Maps(s'.img, r', m')
    && m'.Data() == m.Data() + [b]
    && OnlyAddresses(r, r')
    && (Clean(s.img, r, m) ==> Clean(s'.img, r', m'))
  }

  /** What a successful append of block b does to the mapping, to the live blocks and to the disk. */
  ghost predicate Appended(s: Store, r: Record, m: BlockMap, b: int, s': Store, r': Record, m': BlockMap) {
    && Remapped(s, r, m, b, s', r', m')
    && Accounted(s, m, b, s', m')
    && Untouched(s.img, s'.img, s.live, m)
  }

  /** What a failed append leaves: the same mapping, with whatever index blocks it took lost to everyone. */
  ghost predicate NotAppended(s: Store, r: Record, m: BlockMap, s': Store, r': Record) {
    && Maps(s'.img, r', m)
    && s.live <= s'.live
    && Untouched(s.img, s'.img, s.live, m)
    && OnlyAddresses(r, r')
  }

  /** A failed append has used up every spare block, unless the file had its full length. */
  ghost predicate UsedUp(s: Store, r: Record, m: BlockMap, s': Store, r': Record) {
    if |m.Data()| < MAX_BLOCKS then Spare(s'.live) == 0 else s' == s && r' == r
  }

  /** The outcome of an append: it succeeds exactly when the index blocks it needs are there. */
  ghost predicate Outcome(s: Store, r: Record, m: BlockMap, b: int, ok: bool, s': Store, r': Record, m': BlockMap) {
    && (ok <==> |m.Data()| < MAX_BLOCKS && IndexBlocksFor(|m.Data()|) <= Spare(s.live))
    && if ok then Appended(s, r, m, b, s', r', m')
       else m' == m && NotAppended(s, r, m, s', r') && UsedUp(s, r, m, s', r')
  }

  /** Allocates or looks up the index block whose address is in entry `slot` of index block p; -1 if none is spare. */
  method ChildOf(disk: Disk, p: int, slot: int, isNew: bool) returns (q: int)
    requires disk.Valid() && p in disk.live && InData(p) && 0 <= slot < N
    requires !isNew ==> InData(Word(disk.img[p], slot)) && Word(disk.img[p], slot) in disk.live
    modifies disk, disk.mem
    ensures disk.Valid()
    ensures 0 <= Spare(old(disk.live)) && 0 <= Spare(disk.live)
    ensures q == -1 <==> isNew && Spare(old(disk.live)) == 0
    ensures q == -1 ==> disk.Now() == old(disk.Now())
    ensures q != -1 ==> InData(q) && q in disk.live
    ensures q != -1 ==>
      if isNew then Chained(old(disk.Now()), p, slot, q, disk.Now())
      else disk.Now() == old(disk.Now()) && q == Word(old(disk.img)[p], slot)
    ensures FreeKept(old(disk.Now()), disk.Now())
  {
    hide FreeKept, Spare, ZeroPast0, PutWord, Word, disk.Valid;
    NothingTaken(disk.Now());
    SpareIsNatural(disk);
    if isNew {
      q := AddIndexBlock(disk, p, slot);
      if q == -1 {
        return;
      }
      SpareIsNatural(disk);
    }
    var block := ReadDataBlock(disk, p);
    q := Word(block.value, slot);
    if q <= 0 {
      return -1;
    }
  }

  function When(c: bool, b: int): seq<int> {
    if c then [b] else []
  }

  lemma OwnedCount(m: BlockMap)
    ensures |Owned(m)| == |m.Data()| + m.IndexCount()
  {
  }

  /** A successful append has used up just the index blocks it needed. */
  lemma AppendSpends(s: Store, r: Record, m: BlockMap, b: int, s': Store, r': Record, m': BlockMap)
    requires Appended(s, r, m, b, s', r', m')
    ensures Spare(s'.live) == Spare(s.live) - IndexBlocksFor(|m.Data()|)
  {
    hide Maps, Clean, Owned, Untouched, IndexBlocksFor;
    OwnedCount(m);
    OwnedCount(m');
    assert |multiset(s'.live) + Owned(m) + multiset{b}| == |multiset(s.live) + Owned(m')|;
  }

  // ----- the direct region -----

  lemma DirectAccounted(s: Store, r: Record, m: BlockMap, b: int)
    requires Maps(s.img, r, m) && r.blocks < DIRECT
    ensures Accounted(s, m, b, s, m.(direct := m.direct + [b]))
  {
  }

  lemma DirectAppended(s: Store, r: Record, m: BlockMap, b: int, r': Record)
    requires Ready(s, r, m, b) && r.blocks < DIRECT && 0 <= Spare(s.live)
    requires r' == r.(blocks := r.blocks + 1, direct := r.direct[r.blocks := b])
    ensures Outcome(s, r, m, b, true, s, r', m.(direct := m.direct + [b]))
  {
    hide Owned, Exclusive, Accounted, Pack, Tail, Spare;
    DirectAccounted(s, r, m, b);
    var m' := m.(direct := m.direct + [b]);
    assert m.s0 == m.d0 == m.t0 == [];
    assert m'.Data() == m.Data() + [b];
  }

  lemma NothingAppended(s: Store, r: Record, m: BlockMap, b: int)
    requires Ready(s, r, m, b)
    ensures NotAppended(s, r, m, s, r) && Exclusive(s.live, m) && Maps(s.img, r, m) && InData(b)
  {
    hide Maps, Exclusive;
  }

  // ----- the single indirect region -----

  lemma SingleRoot(s: Store, r: Record, m: BlockMap, b: int)
    requires Ready(s, r, m, b) && DIRECT <= r.blocks < DIRECT + N
    ensures InData(b) && 0 <= r.blocks - DIRECT == |m.s0| && |m.Data()| < MAX_BLOCKS
    ensures IndexBlocksFor(|m.Data()|) == if r.blocks == DIRECT then 1 else 0
    ensures r.blocks > DIRECT ==> m.s1 == [r.single] && InData(r.single) && r.single in s.live
    ensures NotAppended(s, r, m, s, r)
  {
    if r.blocks > DIRECT {
      OwnedIsLive(s.live, m, r.single);
    }
  }

  /** The steps of an append to the single region: a new index block for its first slot, then the slot. */
  ghost predicate SingleSteps(s: Store, m: BlockMap, b: int, s1: Store, s': Store, p: int) {
    && (if m.s0 == [] then Taken(s, p, s1) else m.s1 == [p] && s1 == s)
    && Stored(s1, p, |m.s0|, b, s')
  }

  lemma SinglePacked(s: Store, m: BlockMap, b: int, s1: Store, s': Store, p: int)
    requires SingleSteps(s, m, b, s1, s', p) && Pack(s.img, m.s1, m.s0)
    ensures Pack(s'.img, [p], m.s0 + [b])
    ensures Tail(s.img, m.s1, m.s0) ==> Tail(s'.img, [p], m.s0 + [b])
  {
    hide Word, PutWord;
    if m.s0 == [] {
      PutWordAll(s1.img[p], 0, b);
      PackOnto(s.img, s'.img, [], [], p, b);
      assert [] + [p] == [p];
    } else {
      PackInto(s.img, s'.img, m.s1, m.s0, b);
    }
  }

  lemma OwnedSingle(m: BlockMap, b: int, root: seq<int>)
    ensures Owned(m.(s0 := m.s0 + [b], s1 := m.s1 + root)) == Owned(m) + multiset{b} + multiset(root)
  {
    assert multiset(m.s0 + [b]) == multiset(m.s0) + multiset{b};
    assert multiset(m.s1 + root) == multiset(m.s1) + multiset(root);
  }

  lemma SingleAccounted(s: Store, r: Record, m: BlockMap, b: int, s1: Store, s': Store, p: int)
    requires Maps(s.img, r, m) && DIRECT <= r.blocks < DIRECT + N && SingleSteps(s, m, b, s1, s', p)
    ensures Accounted(s, m, b, s', m.(s1 := [p], s0 := m.s0 + [b]))
  {
    hide Owned, Tail, Word;
    ghost var root := if m.s0 == [] then [p] else [];
    assert m.s1 + root == [p];
    assert multiset(s'.live) == multiset(s.live) + multiset(root);
    OwnedSingle(m, b, root);
  }

  lemma SingleRemapped(s: Store, r: Record, m: BlockMap, b: int, s': Store, r': Record, p: int)
    requires Maps(s.img, r, m) && DIRECT <= r.blocks < DIRECT + N
    requires r' == r.(blocks := r.blocks + 1, single := p)
    requires Pack(s'.img, [p], m.s0 + [b]) && (Tail(s.img, m.s1, m.s0) ==> Tail(s'.img, [p], m.s0 + [b]))
    ensures Remapped(s, r, m, b, s', r', m.(s1 := [p], s0 := m.s0 + [b]))
  {
    assert m.d0 == m.d1 == m.d2 == m.t0 == m.t1 == m.t2 == m.t3 == [];
  }

  lemma SingleAppended(s: Store, r: Record, m: BlockMap, b: int, s1: Store, s': Store, r': Record, p: int)
    requires Ready(s, r, m, b) && DIRECT <= r.blocks < DIRECT + N
    requires SingleSteps(s, m, b, s1, s', p)
    requires r' == r.(blocks := r.blocks + 1, single := p)
    ensures Appended(s, r, m, b, s', r', m.(s1 := [p], s0 := m.s0 + [b]))
  {
    var m' := m.(s1 := [p], s0 := m.s0 + [b]);
    SinglePacked(s, m, b, s1, s', p);
    hide Word, PutWord, Tail, Pack, PutWord;
    SingleAccounted(s, r, m, b, s1, s', p);
    hide Exclusive, Owned, Accounted;
    SingleRemapped(s, r, m, b, s', r', p);
  }

  method AppendSingle(disk: Disk, node: Inode, b: int, ghost m: BlockMap)
    returns (ok: bool, ghost m': BlockMap)
    requires disk.Valid() && Ready(disk.Now(), node.Rec(), m, b)
    requires DIRECT <= node.blocks < DIRECT + N
    modifies disk, disk.mem, node
    ensures disk.Valid()
    ensures Outcome(old(disk.Now()), old(node.Rec()), m, b, ok, disk.Now(), node.Rec(), m')
    ensures FreeKept(old(disk.Now()), disk.Now())
  {
    hide FreeKept, Ready, Appended, NotAppended, Owned, Stored, ZeroPast0, Spare, IndexBlocksFor, disk.Valid;
    NothingTaken(disk.Now());
    ghost var s0, r0 := disk.Now(), node.Rec();
    SpareIsNatural(disk);
    SingleRoot(s0, r0, m, b);
    m' := m;
    var slot := node.blocks - DIRECT;
    if slot == 0 {
      var p := AllocateDataBlock(disk);
      if p == -1 {
        return false, m;
      }
      node.single := p;
    }
    ghost var s1 := disk.Now();
    StoreAddress(disk, node.single, slot, b);
    FreeKeptTwice(s0, s1, disk.Now());
    node.blocks := node.blocks + 1;
    SingleAppended(s0, r0, m, b, s1, disk.Now(), node.Rec(), node.single);
    return true, m.(s1 := [node.single], s0 := m.s0 + [b]);
  }

  // ----- the double indirect region -----

  lemma DoubleSizes(img: Image, r: Record, m: BlockMap)
    requires Maps(img, r, m) && DIRECT + N <= r.blocks < DIRECT + N + N * N
    ensures var x := r.blocks - DIRECT - N;
      && |m.Data()| == r.blocks && |m.d0| == x
      && (x > 0 ==> m.d2 == [r.double] && InData(r.double))
      && (x % N == 0 ==> |m.d1| == x / N) && (x % N != 0 ==> |m.d1| == x / N + 1 && InData(m.d1[x / N]))
      && Pack(img, m.d2, m.d1)
  {
    hide Word, Triple;
  }

  lemma DoubleNeeds(x: int)
    requires 0 <= x < N * N
    ensures IndexBlocksFor(DIRECT + N + x) == (if x == 0 then 2 else if x % N == 0 then 1 else 0)
  {
  }

  /** The single block that the next slot of the double region belongs to. */
  lemma LastOfDouble(s: Store, m: BlockMap, x: nat)
    requires Exclusive(s.live, m) && Pack(s.img, m.d2, m.d1) && |m.d1| == x / N + 1 && |m.d2| == 1
    ensures InData(m.d2[0]) && m.d2[0] in s.live
    ensures Word(s.img[m.d2[0]], x / N) == m.d1[x / N] && InData(m.d1[x / N]) && m.d1[x / N] in s.live
  {
    hide Word, Exclusive, Owned;
    assert m.d1[x / N] in m.d1 && m.d2[0] in m.d2;
    OwnedIsLive(s.live, m, m.d1[x / N]);
    OwnedIsLive(s.live, m, m.d2[0]);
    PackAt(s.img, m.d2, m.d1, x / N);
  }

  lemma DoubleRoot(s: Store, r: Record, m: BlockMap, b: int)
    requires Ready(s, r, m, b) && DIRECT + N <= r.blocks < DIRECT + N + N * N
    ensures InData(b) && |m.Data()| < MAX_BLOCKS
    ensures var x := r.blocks - DIRECT - N;
      && x == |m.d0|
      && IndexBlocksFor(|m.Data()|) == (if x == 0 then 2 else if x % N == 0 then 1 else 0)
      && (x > 0 ==> m.d2 == [r.double] && InData(r.double) && r.double in s.live)
      && (x % N == 0 ==> |m.d1| == x / N)
      && (x % N != 0 ==>
          |m.d1| == x / N + 1 && Word(s.img[r.double], x / N) == m.d1[x / N]
          && InData(m.d1[x / N]) && m.d1[x / N] in s.live)
    ensures NotAppended(s, r, m, s, r)
  {
    hide Word, Ready, Maps, Exclusive, Owned, Pack, NotAppended, IndexBlocksFor;
    NothingAppended(s, r, m, b);
    DoubleSizes(s.img, r, m);
    var x := |m.d0|;
    DoubleNeeds(x);
    if x > 0 {
      assert r.double in m.d2;
      OwnedIsLive(s.live, m, r.double);
    }
    if x % N != 0 {
      LastOfDouble(s, m, x);
    }
  }

  /**
   * The steps of an append to the double region: a new double block for its very first slot, a new single
   * block q where one begins, then the slot.
   */
  ghost predicate DoubleSteps(s: Store, m: BlockMap, b: int, s1: Store, s2: Store, s': Store, p: int, q: int) {
    var x := |m.d0|;
    && DoubleTop(s, m, s1, p)
    && (if x % N == 0 then Chained(s1, p, x / N, q, s2) else s2 == s1 && |m.d1| == x / N + 1 && m.d1[x / N] == q)
    && Stored(s2, q, x % N, b, s')
  }

  function DoubleMap(m: BlockMap, b: int, p: int, q: int): BlockMap {
    m.(d2 := [p], d1 := if |m.d0| % N == 0 then m.d1 + [q] else m.d1, d0 := m.d0 + [b])
  }

  ghost predicate DoublePack(img: Image, m: BlockMap) {
    Pack(img, m.d1, m.d0) && Pack(img, m.d2, m.d1)
  }

  ghost predicate DoubleTail(img: Image, m: BlockMap) {
    Tail(img, m.d1, m.d0) && Tail(img, m.d2, m.d1)
  }

  /** None of the double region's index blocks is any other of them, or was free. */
  ghost predicate DoubleApart(live: set<int>, m: BlockMap) {
    && NoDuplicates(m.d1) && NoDuplicates(m.d2)
    && (forall x :: x in m.d1 ==> x in live && x !in m.d2)
    && (forall x :: x in m.d2 ==> x in live)
  }

  lemma DoublePacked(s: Store, r: Record, m: BlockMap, b: int, s1: Store, s2: Store, s': Store, p: int, q: int)
    requires Double(s.img, r, m) && Exclusive(s.live, m) && |m.d0| < N * N && InData(b)
    requires DoubleSteps(s, m, b, s1, s2, s', p, q)
    ensures DoublePack(s'.img, DoubleMap(m, b, p, q))
    ensures DoubleTail(s.img, m) ==> DoubleTail(s'.img, DoubleMap(m, b, p, q))
  {
    hide Word, PutWord, Exclusive, Tail, DoubleSteps, DoubleMap, DoubleTail, NoDuplicates;
    Layers(s.live, m);
    IndexApart(s.live, m);
    if |m.d0| == 0 {
      DoublePacked0(s, m, b, s1, s2, s', p, q);
    } else if |m.d0| % N == 0 {
      DoublePacked1(s, m, b, s1, s2, s', p, q);
    } else {
      DoublePacked2(s, m, b, s1, s2, s', p, q);
    }
  }

  /** The very first slot: a double block and a single block are new. */
  lemma DoublePacked0(s: Store, m: BlockMap, b: int, s1: Store, s2: Store, s': Store, p: int, q: int)
    requires m.d0 == m.d1 == m.d2 == [] && InData(b) && DoubleSteps(s, m, b, s1, s2, s', p, q)
    ensures DoublePack(s'.img, DoubleMap(m, b, p, q)) && DoubleTail(s'.img, DoubleMap(m, b, p, q))
  {
    hide Word, PutWord;
    PutWordAll(s1.img[p], 0, q);
    PutWordAll(s2.img[q], 0, b);
    PackOnto(s.img, s'.img, [], [], q, b);
    PackOnto(s.img, s'.img, [], [], p, q);
    assert [] + [p] == [p] && [] + [q] == [q] && [] + [b] == [b];
  }

  /** The first slot of a single block. */
  lemma DoublePacked1(s: Store, m: BlockMap, b: int, s1: Store, s2: Store, s': Store, p: int, q: int)
    requires DoublePack(s.img, m) && DoubleApart(s.live, m) && InData(b) && DoubleSteps(s, m, b, s1, s2, s', p, q)
    requires 0 < |m.d0| < N * N && |m.d0| % N == 0 && |m.d1| == |m.d0| / N && |m.d2| == 1
    ensures DoublePack(s'.img, DoubleMap(m, b, p, q))
    ensures DoubleTail(s.img, m) ==> DoubleTail(s'.img, DoubleMap(m, b, p, q))
  {
    hide Word, PutWord, Pack, Tail;
    PutWordAll(s2.img[q], 0, b);
    assert Same(s.img, s'.img, m.d1);
    PackOnto(s.img, s'.img, m.d1, m.d0, q, b);
    PackInto(s.img, s'.img, m.d2, m.d1, q);
  }

  /** Any other slot. */
  lemma DoublePacked2(s: Store, m: BlockMap, b: int, s1: Store, s2: Store, s': Store, p: int, q: int)
    requires DoublePack(s.img, m) && DoubleApart(s.live, m) && InData(b) && DoubleSteps(s, m, b, s1, s2, s', p, q)
    requires |m.d0| % N != 0 && |m.d1| == |m.d0| / N + 1 && |m.d2| == 1 && AllInData(m.d2)
    ensures DoublePack(s'.img, DoubleMap(m, b, p, q))
    ensures DoubleTail(s.img, m) ==> DoubleTail(s'.img, DoubleMap(m, b, p, q))
  {
    hide Word, PutWord, Pack, Tail;
    assert q in m.d1;
    LastApart(m.d1);
    PackFrame(s.img, s'.img, m.d2, m.d1);
    PackInto(s.img, s'.img, m.d1, m.d0, b);
  }

  lemma OwnedDouble(m: BlockMap, data: seq<int>, singles: seq<int>, roots: seq<int>)
    ensures Owned(m.(d0 := m.d0 + data, d1 := m.d1 + singles, d2 := m.d2 + roots))
      == Owned(m) + multiset(data) + multiset(singles) + multiset(roots)
  {
    assert multiset(m.d0 + data) == multiset(m.d0) + multiset(data);
    assert multiset(m.d1 + singles) == multiset(m.d1) + multiset(singles);
    assert multiset(m.d2 + roots) == multiset(m.d2) + multiset(roots);
  }

  lemma DoubleLive(s: Store, m: BlockMap, b: int, s1: Store, s2: Store, s': Store, p: int, q: int)
    requires DoubleSteps(s, m, b, s1, s2, s', p, q)
    ensures s.live <= s'.live
    ensures multiset(s'.live) == multiset(s.live) + multiset(When(|m.d0| % N == 0, q)) + multiset(When(|m.d0| == 0, p))
  {
    assert multiset(s1.live) == multiset(s.live) + multiset(When(|m.d0| == 0, p));
    assert multiset(s'.live) == multiset(s1.live) + multiset(When(|m.d0| % N == 0, q));
  }

  lemma DoubleMapIs(s: Store, r: Record, m: BlockMap, b: int, s1: Store, s2: Store, s': Store, p: int, q: int)
    requires Maps(s.img, r, m) && DIRECT + N <= r.blocks < DIRECT + N + N * N
    requires DoubleSteps(s, m, b, s1, s2, s', p, q)
    ensures DoubleMap(m, b, p, q)
      == m.(d0 := m.d0 + [b], d1 := m.d1 + When(|m.d0| % N == 0, q), d2 := m.d2 + When(|m.d0| == 0, p))
    ensures |m.Data()| == DIRECT + N + |m.d0| < DIRECT + N + N * N && |m.d2| == (if m.d0 == [] then 0 else 1)
  {
    assert [p] == m.d2 + When(|m.d0| == 0, p);
    assert m.d1 == m.d1 + [];
  }

  lemma DoubleCount(m: BlockMap, b: int, p: int, q: int)
    requires |m.Data()| == DIRECT + N + |m.d0| < DIRECT + N + N * N && |m.d2| == (if m.d0 == [] then 0 else 1)
    ensures DoubleMap(m, b, p, q).IndexCount() == m.IndexCount() + IndexBlocksFor(|m.Data()|)
  {
  }

  lemma DoubleAccounted(s: Store, r: Record, m: BlockMap, b: int, s1: Store, s2: Store, s': Store, p: int, q: int)
    requires Maps(s.img, r, m) && DIRECT + N <= r.blocks < DIRECT + N + N * N
    requires DoubleSteps(s, m, b, s1, s2, s', p, q)
    ensures Accounted(s, m, b, s', DoubleMap(m, b, p, q))
  {
    hide Owned, Maps, DoubleMap, DoubleSteps, IndexBlocksFor, When;
    DoubleMapIs(s, r, m, b, s1, s2, s', p, q);
    DoubleCount(m, b, p, q);
    DoubleLive(s, m, b, s1, s2, s', p, q);
    OwnedDouble(m, [b], When(|m.d0| % N == 0, q), When(|m.d0| == 0, p));
  }

  lemma DoubleRemapped(s: Store, r: Record, m: BlockMap, b: int, s': Store, r': Record, p: int, q: int)
    requires Maps(s.img, r, m) && DIRECT + N <= r.blocks < DIRECT + N + N * N
    requires r' == r.(blocks := r.blocks + 1, double := p)
    requires DoublePack(s'.img, DoubleMap(m, b, p, q))
    requires DoubleTail(s.img, m) ==> DoubleTail(s'.img, DoubleMap(m, b, p, q))
    requires Same(s.img, s'.img, m.s1)
    ensures Remapped(s, r, m, b, s', r', DoubleMap(m, b, p, q))
  {
    assert m.t0 == m.t1 == m.t2 == m.t3 == [];
    PackFrame(s.img, s'.img, m.s1, m.s0);
  }

  lemma DoubleFrame(s: Store, r: Record, m: BlockMap, b: int, s1: Store, s2: Store, s': Store, p: int, q: int)
    requires Maps(s.img, r, m) && Exclusive(s.live, m) && DoubleSteps(s, m, b, s1, s2, s', p, q)
    ensures Same(s.img, s'.img, m.s1)
    ensures Untouched(s.img, s'.img, s.live, m)
  {
    hide Word, PutWord;
    IndexApart(s.live, m);
    hide Exclusive, Maps;
    if |m.d0| % N != 0 {
      assert q in m.d1;
    }
    if |m.d0| != 0 {
      assert p in m.d2;
    }
  }

  /** A double block may have been allocated before the single block could not be. */
  lemma DoubleFailed(s: Store, r: Record, m: BlockMap, b: int, s1: Store, p: int)
    requires Ready(s, r, m, b) && m.d0 == [] && DIRECT + N <= r.blocks && Taken(s, p, s1)
    ensures NotAppended(s, r, m, s1, r.(double := p))
  {
    hide Word, Ready, Exclusive, Taken, Owned;
    NothingAppended(s, r, m, b);
    TakenFrame(s, p, s1);
    IndexApart(s.live, m);
    PackFrame(s.img, s1.img, m.s1, m.s0);
    assert m.d1 == m.d2 == m.t0 == m.t1 == m.t2 == m.t3 == [];
    hide Pack, Tail;
  }

  lemma TakenFrame(s: Store, p: int, s1: Store)
    requires Taken(s, p, s1)
    ensures s.live <= s1.live && forall b :: 0 <= b < BLOCK_COUNT && b in s.live ==> s1.img[b] == s.img[b]
  {
  }

  lemma DoubleAppended(s: Store, r: Record, m: BlockMap, b: int, s1: Store, s2: Store, s': Store, r': Record, p: int,
                       q: int)
    requires Ready(s, r, m, b) && DIRECT + N <= r.blocks < DIRECT + N + N * N
    requires DoubleSteps(s, m, b, s1, s2, s', p, q)
    requires r' == r.(blocks := r.blocks + 1, double := p)
    ensures Appended(s, r, m, b, s', r', DoubleMap(m, b, p, q))
  {
    hide Word, PutWord, Tail, Pack, PutWord, Exclusive, Owned, Accounted, Remapped, DoubleSteps;
    DoublePacked(s, r, m, b, s1, s2, s', p, q);
    DoubleAccounted(s, r, m, b, s1, s2, s', p, q);
    DoubleFrame(s, r, m, b, s1, s2, s', p, q);
    DoubleRemapped(s, r, m, b, s', r', p, q);
  }

  /** The double block as the append finds it, or has just allocated it. */
  ghost predicate DoubleTop(s: Store, m: BlockMap, s1: Store, p: int) {
    if m.d0 == [] then Taken(s, p, s1) else m.d2 == [p] && s1 == s
  }

  /** Inside a single block, the entry of the double block leads to it. */
  lemma DoubleEntry(s: Store, r: Record, m: BlockMap, b: int, s1: Store, p: int)
    requires Ready(s, r, m, b) && DIRECT + N <= r.blocks < DIRECT + N + N * N && DoubleTop(s, m, s1, p)
    ensures var x := r.blocks - DIRECT - N;
      && 0 <= x == |m.d0| && InData(p) && p in s1.live && InData(b)
      && (x % N != 0 ==>
          && |m.d1| == x / N + 1 && Word(s1.img[p], x / N) == m.d1[x / N]
          && InData(m.d1[x / N]) && m.d1[x / N] in s1.live)
  {
    hide Word, Ready, NotAppended, ZeroPast0, Spare;
    DoubleRoot(s, r, m, b);
  }

  lemma DoubleNone(s: Store, r: Record, m: BlockMap, b: int)
    requires Ready(s, r, m, b) && DIRECT + N <= r.blocks < DIRECT + N + N * N && m.d0 == [] && Spare(s.live) == 0
    ensures Outcome(s, r, m, b, false, s, r, m)
  {
    hide Word, Spare, Appended, Ready, NotAppended;
    DoubleRoot(s, r, m, b);
  }

  /** The single block could not be allocated. */
  lemma DoubleFails(s: Store, r: Record, m: BlockMap, b: int, s1: Store, p: int)
    requires Ready(s, r, m, b) && DIRECT + N <= r.blocks < DIRECT + N + N * N && DoubleTop(s, m, s1, p)
    requires |m.d0| % N == 0 && Spare(s1.live) == 0
    ensures Outcome(s, r, m, b, false, s1, r.(double := p), m)
  {
    hide Word, Appended, Ready, NotAppended, ZeroPast0;
    DoubleRoot(s, r, m, b);
    if m.d0 == [] {
      DoubleFailed(s, r, m, b, s1, p);
    }
  }

  lemma DoubleEnough(s: Store, r: Record, m: BlockMap, b: int, s1: Store, p: int)
    requires Ready(s, r, m, b) && DIRECT + N <= r.blocks < DIRECT + N + N * N && DoubleTop(s, m, s1, p)
    requires 0 <= Spare(s1.live) && !(|m.d0| % N == 0 && Spare(s1.live) == 0)
    ensures IndexBlocksFor(|m.Data()|) <= Spare(s.live) && |m.Data()| < MAX_BLOCKS
  {
    hide Word, Ready, NotAppended, ZeroPast0;
    DoubleRoot(s, r, m, b);
  }

  /** Finds, or allocates, the double block. */
  method DoubleDouble(disk: Disk, node: Inode, b: int, ghost m: BlockMap) returns (ok: bool)
    requires disk.Valid() && Ready(disk.Now(), node.Rec(), m, b)
    requires DIRECT + N <= node.blocks < DIRECT + N + N * N
    modifies disk, disk.mem, node
    ensures disk.Valid()
    ensures node.Rec() == old(node.Rec()).(double := node.double)
    ensures 0 <= Spare(old(disk.live))
    ensures ok <==> m.d0 != [] || Spare(old(disk.live)) > 0
    ensures !ok ==> disk.Now() == old(disk.Now()) && node.Rec() == old(node.Rec())
    ensures ok ==> DoubleTop(old(disk.Now()), m, disk.Now(), node.double)
    ensures ok ==> InData(node.double) && node.double in disk.live
    ensures FreeKept(old(disk.Now()), disk.Now())
  {
    hide FreeKept, Ready, NotAppended, ZeroPast0, Spare, Word, IndexBlocksFor, disk.Valid;
    NothingTaken(disk.Now());
    SpareIsNatural(disk);
    DoubleRoot(disk.Now(), node.Rec(), m, b);
    if node.blocks - DIRECT - N == 0 {
      var p := AllocateDataBlock(disk);
      if p == -1 {
        return false;
      }
      node.double := p;
    }
    ok := true;
  }

  method AppendDouble(disk: Disk, node: Inode, b: int, ghost m: BlockMap)
    returns (ok: bool, ghost m': BlockMap)
    requires disk.Valid() && Ready(disk.Now(), node.Rec(), m, b)
    requires DIRECT + N <= node.blocks < DIRECT + N + N * N
    modifies disk, disk.mem, node
    ensures disk.Valid()
    ensures Outcome(old(disk.Now()), old(node.Rec()), m, b, ok, disk.Now(), node.Rec(), m')
    ensures FreeKept(old(disk.Now()), disk.Now())
  {
    hide FreeKept, Ready, Appended, NotAppended, UsedUp, Stored, Chained, Spare, IndexBlocksFor, disk.Valid, PutWord,
         Word, DoubleMap, DoubleTop;
    NothingTaken(disk.Now());
    ghost var s0, r0 := disk.Now(), node.Rec();
    m' := m;
    var x := node.blocks - DIRECT - N;
    ok := DoubleDouble(disk, node, b, m);
    if !ok {
      DoubleNone(s0, r0, m, b);
      return;
    }
    ghost var s1 := disk.Now();
    DoubleEntry(s0, r0, m, b, s1, node.double);
    var q := ChildOf(disk, node.double, x / N, x % N == 0);
    ghost var s2 := disk.Now();
    FreeKeptTwice(s0, s1, s2);
    if q == -1 {
      DoubleFails(s0, r0, m, b, s1, node.double);
      return false, m;
    }
    DoubleEnough(s0, r0, m, b, s1, node.double);
    StoreAddress(disk, q, x % N, b);
    FreeKeptTwice(s0, s2, disk.Now());
    node.blocks := node.blocks + 1;
    DoubleAppended(s0, r0, m, b, s1, s2, disk.Now(), node.Rec(), node.double, q);
    return true, DoubleMap(m, b, node.double, q);
  }

  // ----- the triple indirect region -----

  lemma TripleRoot(s: Store, r: Record, m: BlockMap, b: int)
    requires Ready(s, r, m, b) && DIRECT + N + N * N <= r.blocks < MAX_BLOCKS
    ensures InData(b) && |m.Data()| == r.blocks
    ensures var x := r.blocks - DIRECT - N - N * N;
      && x == |m.t0|
      && (x > 0 ==> m.t3 == [r.triple] && InData(r.triple) && r.triple in s.live)
    ensures NotAppended(s, r, m, s, r)
  {
    if m.t0 != [] {
      OwnedIsLive(s.live, m, r.triple);
    }
  }

  lemma TripleMiddle(s: Store, r: Record, m: BlockMap, b: int)
    requires Ready(s, r, m, b)
    ensures var y := |m.t0| / (N * N);
      && (|m.t0| % (N * N) == 0 ==> |m.t2| == y)
      && (|m.t0| % (N * N) != 0 ==>
          |m.t2| == y + 1 && m.t3 != []
          && InData(m.t3[0]) && y < N && Word(s.img[m.t3[0]], y) == m.t2[y]
          && InData(m.t2[y]) && m.t2[y] in s.live)
  {
    hide Word;
    var y := |m.t0| / (N * N);
    TripleSizes(|m.t0|, |m.t1|, |m.t2|);
    if |m.t0| % (N * N) != 0 {
      assert m.t2[y] in m.t2;
      OwnedIsLive(s.live, m, m.t2[y]);
      hide Owned, Exclusive;
      PackAt(s.img, m.t3, m.t2, y);
    }
  }

  lemma TripleInner(s: Store, r: Record, m: BlockMap, b: int)
    requires Ready(s, r, m, b)
    ensures var z := |m.t0| / N;
      && z / N == |m.t0| / (N * N)
      && (|m.t0| % N == 0 ==> |m.t1| == z)
      && (|m.t0| % N != 0 ==>
          |m.t1| == z + 1 && z / N < |m.t2|
          && InData(m.t2[z / N]) && Word(s.img[m.t2[z / N]], z % N) == m.t1[z]
          && InData(m.t1[z]) && m.t1[z] in s.live)
  {
    hide Word;
    var z := |m.t0| / N;
    TripleSizes(|m.t0|, |m.t1|, |m.t2|);
    if |m.t0| % N != 0 {
      assert m.t1[z] in m.t1;
      OwnedIsLive(s.live, m, m.t1[z]);
      hide Owned, Exclusive;
      PackAt(s.img, m.t2, m.t1, z);
    }
  }

  /**
   * The first steps of an append to the triple region: a new triple block p for its very first slot, a new
   * double block q where one begins.
   */
  ghost predicate TripleTop(s: Store, m: BlockMap, s1: Store, s2: Store, p: int, q: int) {
    var x := |m.t0|;
    && (if x == 0 then Taken(s, p, s1) else m.t3 == [p] && s1 == s)
    && (if x % (N * N) == 0 then Chained(s1, p, x / (N * N), q, s2)
        else s2 == s1 && |m.t2| == x / (N * N) + 1 && m.t2[x / (N * N)] == q)
  }

  /** All the steps: then a new single block u where one begins, then the slot. */
  ghost predicate TripleSteps(s: Store, m: BlockMap, b: int, s1: Store, s2: Store, s3: Store, s': Store,
                              p: int, q: int, u: int) {
    var x := |m.t0|;
    && TripleTop(s, m, s1, s2, p, q)
    && (if x % N == 0 then Chained(s2, q, x / N % N, u, s3)
        else s3 == s2 && |m.t1| == x / N + 1 && m.t1[x / N] == u)
    && Stored(s3, u, x % N, b, s')
  }

  function TripleMap(m: BlockMap, b: int, p: int, q: int, u: int): BlockMap {
    var x := |m.t0|;
    m.(t3 := [p],
       t2 := if x % (N * N) == 0 then m.t2 + [q] else m.t2,
       t1 := if x % N == 0 then m.t1 + [u] else m.t1,
       t0 := m.t0 + [b])
  }

  ghost predicate TriplePack(img: Image, m: BlockMap) {
    Pack(img, m.t1, m.t0) && Pack(img, m.t2, m.t1) && Pack(img, m.t3, m.t2)
  }

  ghost predicate TripleTail(img: Image, m: BlockMap) {
    Tail(img, m.t1, m.t0) && Tail(img, m.t2, m.t1) && Tail(img, m.t3, m.t2)
  }

  lemma TriplePacked(s: Store, r: Record, m: BlockMap, b: int, s1: Store, s2: Store, s3: Store, s': Store,
                     p: int, q: int, u: int)
    requires Triple(s.img, r, m) && Exclusive(s.live, m) && |m.t0| < N * N * N && InData(b)
    requires TripleSteps(s, m, b, s1, s2, s3, s', p, q, u)
    ensures TriplePack(s'.img, TripleMap(m, b, p, q, u))
    ensures TripleTail(s.img, m) ==> TripleTail(s'.img, TripleMap(m, b, p, q, u))
  {
    hide Word, PutWord;
    var x := |m.t0|;
    Layers(s.live, m);
    IndexApart(s.live, m);
    hide Exclusive, Tail;
    TripleSizes(x, |m.t1|, |m.t2|);
    if x == 0 {
      TriplePacked0(s, m, b, s1, s2, s3, s', p, q, u);
    } else if x % (N * N) == 0 {
      TriplePacked2(s, m, b, s1, s2, s3, s', p, q, u);
    } else if x % N == 0 {
      TriplePacked1(s, m, b, s1, s2, s3, s', p, q, u);
    } else {
      assert u in m.t1;
      LastApart(m.t1);
      PackInto(s.img, s'.img, m.t1, m.t0, b);
      PackFrame(s.img, s'.img, m.t2, m.t1);
      PackFrame(s.img, s'.img, m.t3, m.t2);
    }
  }

  /** None of the triple region's index blocks is any other of them, or was free. */
  ghost predicate TripleApart(live: set<int>, m: BlockMap) {
    && NoDuplicates(m.t1) && NoDuplicates(m.t2)
    && (forall x :: x in m.t1 ==> x in live && x !in m.t2 && x !in m.t3)
    && (forall x :: x in m.t2 ==> x in live && x !in m.t3)
    && (forall x :: x in m.t3 ==> x in live)
  }

  lemma TriplePacked2(s: Store, m: BlockMap, b: int, s1: Store, s2: Store, s3: Store, s': Store,
                      p: int, q: int, u: int)
    requires TriplePack(s.img, m) && TripleApart(s.live, m) && InData(b)
    requires 0 < |m.t0| < N * N * N && |m.t0| % (N * N) == 0
    requires |m.t1| == |m.t0| / N && |m.t2| == |m.t0| / (N * N) && |m.t3| == 1
    requires TripleSteps(s, m, b, s1, s2, s3, s', p, q, u)
    ensures TriplePack(s'.img, TripleMap(m, b, p, q, u))
    ensures TripleTail(s.img, m) ==> TripleTail(s'.img, TripleMap(m, b, p, q, u))
  {
    hide Word, PutWord;
    PutWordAll(s2.img[q], 0, u);
    PutWordAll(s3.img[u], 0, b);
    PackOnto(s.img, s'.img, m.t1, m.t0, u, b);
    PackOnto(s.img, s'.img, m.t2, m.t1, q, u);
    PackInto(s.img, s'.img, m.t3, m.t2, q);
  }

  lemma TriplePacked1(s: Store, m: BlockMap, b: int, s1: Store, s2: Store, s3: Store, s': Store,
                      p: int, q: int, u: int)
    requires TriplePack(s.img, m) && TripleApart(s.live, m) && InData(b)
    requires 0 < |m.t0| < N * N * N && |m.t0| % (N * N) != 0 && |m.t0| % N == 0
    requires |m.t1| == |m.t0| / N && |m.t2| == |m.t0| / (N * N) + 1 && |m.t3| == 1
    requires TripleSteps(s, m, b, s1, s2, s3, s', p, q, u)
    ensures TriplePack(s'.img, TripleMap(m, b, p, q, u))
    ensures TripleTail(s.img, m) ==> TripleTail(s'.img, TripleMap(m, b, p, q, u))
  {
    hide Word, PutWord;
    assert q in m.t2;
    LastApart(m.t2);
    PutWordAll(s3.img[u], 0, b);
    PackOnto(s.img, s'.img, m.t1, m.t0, u, b);
    PackInto(s.img, s'.img, m.t2, m.t1, u);
    PackFrame(s.img, s'.img, m.t3, m.t2);
  }

  lemma TriplePacked0(s: Store, m: BlockMap, b: int, s1: Store, s2: Store, s3: Store, s': Store,
                      p: int, q: int, u: int)
    requires m.t0 == m.t1 == m.t2 == m.t3 == [] && InData(b)
    requires TripleSteps(s, m, b, s1, s2, s3, s', p, q, u)
    ensures TriplePack(s'.img, TripleMap(m, b, p, q, u))
    ensures TripleTail(s'.img, TripleMap(m, b, p, q, u))
  {
    hide Word, PutWord;
    PutWordAll(s1.img[p], 0, q);
    PutWordAll(s2.img[q], 0, u);
    PutWordAll(s3.img[u], 0, b);
    PackOnto(s.img, s'.img, [], [], u, b);
    PackOnto(s.img, s'.img, [], [], q, u);
    PackOnto(s.img, s'.img, [], [], p, q);
    assert [] + [p] == [p] && [] + [q] == [q] && [] + [u] == [u] && [] + [b] == [b];
  }

  lemma OwnedTriple(m: BlockMap, data: seq<int>, singles: seq<int>, doubles: seq<int>, roots: seq<int>)
    ensures Owned(m.(t0 := m.t0 + data, t1 := m.t1 + singles, t2 := m.t2 + doubles, t3 := m.t3 + roots))
      == Owned(m) + multiset(data) + multiset(singles) + multiset(doubles) + multiset(roots)
  {
    assert multiset(m.t0 + data) == multiset(m.t0) + multiset(data);
    assert multiset(m.t1 + singles) == multiset(m.t1) + multiset(singles);
    assert multiset(m.t2 + doubles) == multiset(m.t2) + multiset(doubles);
    assert multiset(m.t3 + roots) == multiset(m.t3) + multiset(roots);
  }

  lemma GrownBy(live: set<int>, live': set<int>, c: bool, b: int)
    requires if c then b !in live && live' == live + {b} else live' == live
    ensures multiset(live') == multiset(live) + multiset(When(c, b))
  {
  }

  lemma TripleLive(s: Store, m: BlockMap, b: int, s1: Store, s2: Store, s3: Store, s': Store, p: int, q: int, u: int)
    requires TripleSteps(s, m, b, s1, s2, s3, s', p, q, u)
    ensures s.live <= s'.live
    ensures multiset(s'.live) == multiset(s.live) + multiset(When(|m.t0| % N == 0, u))
      + multiset(When(|m.t0| % (N * N) == 0, q)) + multiset(When(|m.t0| == 0, p))
  {
    var x := |m.t0|;
    hide Spare, ZeroPast0, PutWord, When;
    GrownBy(s.live, s1.live, x == 0, p);
    GrownBy(s1.live, s2.live, x % (N * N) == 0, q);
    GrownBy(s2.live, s3.live, x % N == 0, u);
  }

  lemma TripleMapIs(s: Store, r: Record, m: BlockMap, b: int, s1: Store, s2: Store, s3: Store, s': Store,
                    p: int, q: int, u: int)
    requires Maps(s.img, r, m) && DIRECT + N + N * N <= r.blocks < MAX_BLOCKS
    requires TripleSteps(s, m, b, s1, s2, s3, s', p, q, u)
    ensures TripleMap(m, b, p, q, u)
      == m.(t0 := m.t0 + [b], t1 := m.t1 + When(|m.t0| % N == 0, u),
            t2 := m.t2 + When(|m.t0| % (N * N) == 0, q), t3 := m.t3 + When(|m.t0| == 0, p))
    ensures |m.Data()| == DIRECT + N + N * N + |m.t0| && |m.t3| == (if m.t0 == [] then 0 else 1)
  {
    assert [p] == m.t3 + When(|m.t0| == 0, p);
    assert m.t1 == m.t1 + [];
    assert m.t2 == m.t2 + [];
  }

  lemma TripleCount(m: BlockMap, b: int, p: int, q: int, u: int)
    requires |m.Data()| == DIRECT + N + N * N + |m.t0| && |m.t3| == (if m.t0 == [] then 0 else 1)
    ensures TripleMap(m, b, p, q, u).IndexCount() == m.IndexCount() + IndexBlocksFor(|m.Data()|)
  {
  }

  lemma TripleAccounted(s: Store, r: Record, m: BlockMap, b: int, s1: Store, s2: Store, s3: Store, s': Store,
                        p: int, q: int, u: int)
    requires Maps(s.img, r, m) && DIRECT + N + N * N <= r.blocks < MAX_BLOCKS
    requires TripleSteps(s, m, b, s1, s2, s3, s', p, q, u)
    ensures Accounted(s, m, b, s', TripleMap(m, b, p, q, u))
  {
    hide Owned, Maps, TripleMap, TripleSteps, IndexBlocksFor, When;
    TripleMapIs(s, r, m, b, s1, s2, s3, s', p, q, u);
    TripleCount(m, b, p, q, u);
    TripleLive(s, m, b, s1, s2, s3, s', p, q, u);
    OwnedTriple(m, [b], When(|m.t0| % N == 0, u), When(|m.t0| % (N * N) == 0, q), When(|m.t0| == 0, p));
  }

  lemma TripleTouches(s: Store, m: BlockMap, b: int, s1: Store, s2: Store, s3: Store, s': Store, p: int, q: int, u: int)
    requires TripleSteps(s, m, b, s1, s2, s3, s', p, q, u)
    ensures forall x :: 0 <= x < BLOCK_COUNT && x != p && x != q && x != u ==> s'.img[x] == s.img[x]
    ensures p !in s.live || p in m.t3
    ensures q !in s.live || q in m.t2
    ensures u !in s.live || u in m.t1
  {
    hide Word, PutWord;
  }

  lemma TripleFrame(s: Store, r: Record, m: BlockMap, b: int, s1: Store, s2: Store, s3: Store, s': Store,
                    p: int, q: int, u: int)
    requires Exclusive(s.live, m) && TripleSteps(s, m, b, s1, s2, s3, s', p, q, u)
    ensures Same(s.img, s'.img, m.s1) && Same(s.img, s'.img, m.d1) && Same(s.img, s'.img, m.d2)
    ensures Untouched(s.img, s'.img, s.live, m)
  {
    hide Exclusive, TripleSteps;
    TripleTouches(s, m, b, s1, s2, s3, s', p, q, u);
    IndexApart(s.live, m);
  }

  lemma TripleRemapped(s: Store, r: Record, m: BlockMap, b: int, s': Store, r': Record, p: int, q: int, u: int)
    requires Maps(s.img, r, m) && DIRECT + N + N * N <= r.blocks < MAX_BLOCKS
    requires r' == r.(blocks := r.blocks + 1, triple := p)
    requires TriplePack(s'.img, TripleMap(m, b, p, q, u))
    requires TripleTail(s.img, m) ==> TripleTail(s'.img, TripleMap(m, b, p, q, u))
    requires Same(s.img, s'.img, m.s1) && Same(s.img, s'.img, m.d1) && Same(s.img, s'.img, m.d2)
    ensures Remapped(s, r, m, b, s', r', TripleMap(m, b, p, q, u))
  {
    PackFrame(s.img, s'.img, m.s1, m.s0);
    PackFrame(s.img, s'.img, m.d1, m.d0);
    PackFrame(s.img, s'.img, m.d2, m.d1);
    assert TripleMap(m, b, p, q, u).Data() == m.Data() + [b];
  }

  lemma TripleAppended(s: Store, r: Record, m: BlockMap, b: int, s1: Store, s2: Store, s3: Store, s': Store,
                       r': Record, p: int, q: int, u: int)
    requires Ready(s, r, m, b) && DIRECT + N + N * N <= r.blocks < MAX_BLOCKS
    requires TripleSteps(s, m, b, s1, s2, s3, s', p, q, u)
    requires r' == r.(blocks := r.blocks + 1, triple := p)
    ensures Appended(s, r, m, b, s', r', TripleMap(m, b, p, q, u))
  {
    hide Word, PutWord, Tail, Pack, Exclusive, Owned, Accounted, Remapped, TripleSteps, TriplePack, TripleTail;
    TriplePacked(s, r, m, b, s1, s2, s3, s', p, q, u);
    TripleAccounted(s, r, m, b, s1, s2, s3, s', p, q, u);
    TripleFrame(s, r, m, b, s1, s2, s3, s', p, q, u);
    TripleRemapped(s, r, m, b, s', r', p, q, u);
  }

  lemma MapsBelowTriple(s: Store, r: Record, m: BlockMap, s': Store, p: int)
    requires Maps(s.img, r, m) && m.t0 != [] && Exclusive(s.live, m)
    requires forall x :: 0 <= x < BLOCK_COUNT && x in s.live && x !in m.t3 ==> s'.img[x] == s.img[x]
    requires Pack(s'.img, m.t3, m.t2) && s.live <= s'.live
    ensures NotAppended(s, r, m, s', r)
  {
    IndexApart(s.live, m);
    hide Exclusive, Owned;
    PackFrame(s.img, s'.img, m.s1, m.s0);
    PackFrame(s.img, s'.img, m.d1, m.d0);
    PackFrame(s.img, s'.img, m.d2, m.d1);
    PackFrame(s.img, s'.img, m.t1, m.t0);
    PackFrame(s.img, s'.img, m.t2, m.t1);
  }

  /** Setting an entry past the children leaves them packed. */
  lemma PackPast(img: Image, img': Image, p: int, children: seq<int>, q: int)
    requires InData(p) && Pack(img, [p], children) && |children| < N && IsInt64(q)
    requires img'[p] == PutWord(img[p], |children|, q)
    ensures Pack(img', [p], children)
  {
    PutWordAll(img[p], |children|, q);
    hide Word, PutWord;
  }

  /** A triple and a double block may have been allocated before the single block could not be. */
  lemma TripleFailed0(s: Store, r: Record, m: BlockMap, b: int, s1: Store, s2: Store, p: int, q: int)
    requires Ready(s, r, m, b) && DIRECT + N + N * N <= r.blocks < MAX_BLOCKS
    requires m.t0 == [] && Taken(s, p, s1)
    requires s2 == s1 || Chained(s1, p, 0, q, s2)
    ensures NotAppended(s, r, m, s2, r.(triple := p))
  {
    TripleFresh(s, s1, s2, p, q);
    hide Taken, Chained;
    FailedEarly(s, r, m, s2, p);
  }

  lemma TripleFresh(s: Store, s1: Store, s2: Store, p: int, q: int)
    requires Taken(s, p, s1)
    requires s2 == s1 || Chained(s1, p, 0, q, s2)
    ensures s.live <= s2.live && forall x :: 0 <= x < BLOCK_COUNT && x in s.live ==> s2.img[x] == s.img[x]
  {
    hide Word, PutWord;
  }

  lemma FailedEarly(s: Store, r: Record, m: BlockMap, s2: Store, p: int)
    requires Maps(s.img, r, m) && Exclusive(s.live, m) && m.t0 == []
    requires s.live <= s2.live && forall x :: 0 <= x < BLOCK_COUNT && x in s.live ==> s2.img[x] == s.img[x]
    ensures NotAppended(s, r, m, s2, r.(triple := p))
  {
    IndexApart(s.live, m);
    hide Exclusive, Owned;
    PackFrame(s.img, s2.img, m.s1, m.s0);
    PackFrame(s.img, s2.img, m.d1, m.d0);
    PackFrame(s.img, s2.img, m.d2, m.d1);
    assert m.t1 == m.t2 == m.t3 == [];
  }

  /** A double block may have been allocated, and chained past the end, before the single block could not be. */
  lemma TripleFailed(s: Store, r: Record, m: BlockMap, b: int, s2: Store, p: int, q: int)
    requires Ready(s, r, m, b) && DIRECT + N + N * N <= r.blocks < MAX_BLOCKS
    requires m.t0 != [] && m.t3 == [p] && |m.t0| % (N * N) == 0 && Chained(s, p, |m.t0| / (N * N), q, s2)
    ensures NotAppended(s, r, m, s2, r)
  {
    hide Word, PutWord;
    TripleSizes(|m.t0|, |m.t1|, |m.t2|);
    PackPast(s.img, s2.img, p, m.t2, q);
    hide Pack;
    MapsBelowTriple(s, r, m, s2, p);
  }

  /** Inside a single block, the entry of double block q already leads to it. */
  lemma TripleBottom(s: Store, r: Record, m: BlockMap, b: int, s1: Store, s2: Store, p: int, q: int)
    requires Ready(s, r, m, b) && TripleTop(s, m, s1, s2, p, q)
    ensures var z := |m.t0| / N;
      |m.t0| % N != 0 ==>
        && |m.t1| == z + 1 && InData(q) && Word(s2.img[q], z % N) == m.t1[z]
        && InData(m.t1[z]) && m.t1[z] in s2.live
  {
    TripleInner(s, r, m, b);
  }

  lemma TripleTopFailed(s: Store, r: Record, m: BlockMap, b: int, s1: Store, s2: Store, p: int, q: int)
    requires Ready(s, r, m, b) && DIRECT + N + N * N <= r.blocks < MAX_BLOCKS
    requires TripleTop(s, m, s1, s2, p, q)
    ensures NotAppended(s, r, m, s2, r.(triple := p))
  {
    if m.t0 == [] {
      TripleFailed0(s, r, m, b, s1, s2, p, q);
    } else if |m.t0| % (N * N) == 0 {
      TripleFailed(s, r, m, b, s2, p, q);
    }
  }

  /** How many of the index blocks an append at slot x of the region needs lie above the single blocks. */
  function TopNeeds(x: int): int {
    if x == 0 then 2 else if x % (N * N) == 0 then 1 else 0
  }

  /** Inside a double block, the entry of the triple block leads to it. */
  lemma TripleTopEntry(s: Store, r: Record, m: BlockMap, b: int, s1: Store, p: int)
    requires Ready(s, r, m, b) && DIRECT + N + N * N <= r.blocks < MAX_BLOCKS
    requires if m.t0 == [] then Taken(s, p, s1) else m.t3 == [p] && s1 == s
    ensures var y := |m.t0| / (N * N);
      && 0 <= y < N
      && (|m.t0| % (N * N) != 0 ==>
          && |m.t2| == y + 1 && Word(s1.img[p], y) == m.t2[y] && InData(m.t2[y]) && m.t2[y] in s1.live)
  {
    hide Word, Ready, ZeroPast0, NotAppended, Spare;
    TripleRoot(s, r, m, b);
    TripleMiddle(s, r, m, b);
  }

  /** Finds, or allocates, the triple block. */
  method TripleTriple(disk: Disk, node: Inode, b: int, ghost m: BlockMap) returns (ok: bool)
    requires disk.Valid() && Ready(disk.Now(), node.Rec(), m, b)
    requires DIRECT + N + N * N <= node.blocks < MAX_BLOCKS
    modifies disk, disk.mem, node
    ensures disk.Valid()
    ensures node.Rec() == old(node.Rec()).(triple := node.triple)
    ensures ok <==> m.t0 != [] || Spare(old(disk.live)) > 0
    ensures !ok ==> disk.Now() == old(disk.Now()) && node.Rec() == old(node.Rec())
    ensures ok ==>
      if m.t0 == [] then Taken(old(disk.Now()), node.triple, disk.Now())
      else m.t3 == [node.triple] && disk.Now() == old(disk.Now())
    ensures ok ==> InData(node.triple) && node.triple in disk.live
    ensures FreeKept(old(disk.Now()), disk.Now())
  {
    hide FreeKept, Ready, NotAppended, ZeroPast0, Spare, disk.Valid;
    NothingTaken(disk.Now());
    TripleRoot(disk.Now(), node.Rec(), m, b);
    if node.blocks - DIRECT - N - N * N == 0 {
      var p := AllocateDataBlock(disk);
      if p == -1 {
        return false;
      }
      node.triple := p;
    }
    ok := true;
  }

  /** Finds, or allocates, the double block that the append goes through. */
  method TripleDouble(disk: Disk, node: Inode, b: int, ghost m: BlockMap)
    returns (q: int, ghost s1: Store)
    requires disk.Valid() && Ready(disk.Now(), node.Rec(), m, b)
    requires DIRECT + N + N * N <= node.blocks < MAX_BLOCKS
    modifies disk, disk.mem, node
    ensures disk.Valid()
    ensures node.Rec() == old(node.Rec()).(triple := node.triple)
    ensures q == -1 ==> Spare(old(disk.live)) < TopNeeds(|m.t0|) && Spare(disk.live) == 0
    ensures q == -1 ==> NotAppended(old(disk.Now()), old(node.Rec()), m, disk.Now(), node.Rec())
    ensures q != -1 ==> InData(q) && q in disk.live
    ensures q != -1 ==> TripleTop(old(disk.Now()), m, s1, disk.Now(), node.triple, q)
    ensures q != -1 ==> 0 <= Spare(disk.live) == Spare(old(disk.live)) - TopNeeds(|m.t0|)
    ensures FreeKept(old(disk.Now()), disk.Now())
  {
    hide FreeKept, Ready, NotAppended, ZeroPast0, Spare, disk.Valid, PutWord, Word;
    NothingTaken(disk.Now());
    ghost var s0, r0 := disk.Now(), node.Rec();
    TripleRoot(s0, r0, m, b);
    SpareIsNatural(disk);
    var x := node.blocks - DIRECT - N - N * N;
    var ok := TripleTriple(disk, node, b, m);
    s1 := disk.Now();
    if !ok {
      return -1, s1;
    }
    TripleTopEntry(s0, r0, m, b, s1, node.triple);
    q := ChildOf(disk, node.triple, x / (N * N), x % (N * N) == 0);
    FreeKeptTwice(s0, s1, disk.Now());
    if q == -1 && x == 0 {
      TripleFailed0(s0, r0, m, b, s1, s1, node.triple, 0);
    }
  }

  lemma TripleNeeds(s: Store, r: Record, m: BlockMap, b: int)
    requires Ready(s, r, m, b) && DIRECT + N + N * N <= r.blocks < MAX_BLOCKS
    ensures InData(b) && |m.t0| == r.blocks - DIRECT - N - N * N && |m.Data()| == r.blocks
    ensures IndexBlocksFor(|m.Data()|)
      == TopNeeds(|m.t0|) + (if |m.t0| % N == 0 then 1 else 0)
  {
    TripleRoot(s, r, m, b);
    hide Ready;
    SquareMultiple(|m.t0|);
  }

  method AppendTriple(disk: Disk, node: Inode, b: int, ghost m: BlockMap)
    returns (ok: bool, ghost m': BlockMap)
    requires disk.Valid() && Ready(disk.Now(), node.Rec(), m, b)
    requires DIRECT + N + N * N <= node.blocks < MAX_BLOCKS
    modifies disk, disk.mem, node
    ensures disk.Valid()
    ensures Outcome(old(disk.Now()), old(node.Rec()), m, b, ok, disk.Now(), node.Rec(), m')
    ensures FreeKept(old(disk.Now()), disk.Now())
  {
    hide FreeKept, Ready, Appended, NotAppended, Stored, Chained, Spare, IndexBlocksFor, disk.Valid, TripleTop,
         TripleMap, Word, TopNeeds;
    NothingTaken(disk.Now());
    ghost var s0, r0 := disk.Now(), node.Rec();
    TripleNeeds(s0, r0, m, b);
    m' := m;
    var x := node.blocks - DIRECT - N - N * N;
    ghost var s1;
    var q;
    q, s1 := TripleDouble(disk, node, b, m);
    if q == -1 {
      return false, m;
    }
    ghost var s2 := disk.Now();
    TripleBottom(s0, r0, m, b, s1, s2, node.triple, q);
    var u := ChildOf(disk, q, x / N % N, x % N == 0);
    if u == -1 {
      FreeKeptTwice(s0, s2, disk.Now());
      TripleTopFailed(s0, r0, m, b, s1, s2, node.triple, q);
      return false, m;
    }
    ghost var s3 := disk.Now();
    FreeKeptTwice(s0, s2, s3);
    StoreAddress(disk, u, x % N, b);
    FreeKeptTwice(s0, s3, disk.Now());
    node.blocks := node.blocks + 1;
    TripleAppended(s0, r0, m, b, s1, s2, s3, disk.Now(), node.Rec(), node.triple, q, u);
    return true, TripleMap(m, b, node.triple, q, u);
  }

  // ----- the whole operation -----

  lemma ReadyShape(s: Store, r: Record, m: BlockMap, b: int)
    requires Ready(s, r, m, b)
    ensures 0 <= r.blocks == |m.Data()| && |r.direct| == DIRECT
    ensures NotAppended(s, r, m, s, r)
  {
  }

  method AddDatablockToInode(disk: Disk, node: Inode, b: int, ghost m: BlockMap)
    returns (ok: bool, ghost m': BlockMap)
    requires disk.Valid() && Ready(disk.Now(), node.Rec(), m, b)
    modifies disk, disk.mem, node
    ensures disk.Valid()
    ensures Outcome(old(disk.Now()), old(node.Rec()), m, b, ok, disk.Now(), node.Rec(), m')
    ensures FreeKept(old(disk.Now()), disk.Now())
  {
    hide FreeKept, Ready, Appended, NotAppended, Spare, IndexBlocksFor, disk.Valid;
    NothingTaken(disk.Now());
    ReadyShape(disk.Now(), node.Rec(), m, b);
    if node.blocks < DIRECT {
      SpareIsNatural(disk);
      DirectAppended(disk.Now(), node.Rec(), m, b,
                     node.Rec().(blocks := node.blocks + 1, direct := node.direct[node.blocks := b]));
      node.direct := node.direct[node.blocks := b];
      node.blocks := node.blocks + 1;
      return true, m.(direct := m.direct + [b]);
    }
    if node.blocks < DIRECT + N {
      ok, m' := AppendSingle(disk, node, b, m);
    } else if node.blocks < DIRECT + N + N * N {
      ok, m' := AppendDouble(disk, node, b, m);
    } else if node.blocks < MAX_BLOCKS {
      ok, m' := AppendTriple(disk, node, b, m);
    } else {
      ok, m' := false, m;
    }
  }
}
