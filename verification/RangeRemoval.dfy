/** Removing the blocks of an inode from a given one onward (src/inode.cpp, remove_datablocks_range_from_inode). */
module RangeRemoval {
  import opened Geometry
  import opened LayerZero
  import opened Inodes
  import opened BlockMaps
  import opened Removal
  import opened RemoveEarly
  import opened RemoveDouble
  import opened RemoveTriple

  /** Whether the inode's index slots are in the shape that a removal from `start` relies on. */
  ghost predicate Prunable(s: Store, r: Record, m: BlockMap, start: int) {
    && Maps(s.img, r, m) && Exclusive(s.live, m) && 0 <= start
    && (start <= r.blocks && start < DIRECT + N ==> Clean(s.img, r, m))
    && (start <= r.blocks && DIRECT + N <= start < DIRECT + N + N * N ==>
          Clean(s.img, r, m) || (start < r.blocks && m.t0 == []))
    && (start <= r.blocks && DIRECT + N + N * N <= start < MAX_BLOCKS ==> Reachable3(s, r, m, start))
  }

  /** The blocks in excess that a removal starting before the triple region fails to give back. */
  ghost function Lost(r: Record, m: BlockMap, start: int): multiset<int> {
    if start < DIRECT then multiset{}
    else if start < DIRECT + N then LostSingle(r, start)
    else LostTriple(m)
  }

  /** The removals that do all they should. */
  predicate Exact(m: BlockMap, start: int) {
    var n := |m.Data()|;
    && start <= n && start < MAX_BLOCKS
    && (DIRECT <= start < DIRECT + N ==> start != DIRECT)
    && (DIRECT + N <= start ==> start < n || (start - DIRECT) % N != 0)
    && (DIRECT + N <= start < DIRECT + N + N * N ==> m.t0 == [] || |m.t0| > N * N)
    && (DIRECT + N + N * N <= start ==> Aligned(start - DIRECT - N - N * N, |m.t0|))
  }

  /** Of those, the removals that leave no stale address in an index block they keep. */
  predicate LeavesZeros(m: BlockMap, start: int) {
    var d := start - DIRECT - N;
    var t := d - N * N;
    && (0 < d < N * N ==> FirstWhole(d) == |m.d1|)
    && (0 < t ==> FirstWhole(t) == |m.t1|)
  }

  /** Giving back everything and giving back all but some are different things. */
  lemma NothingLost(s: Store, r: Record, m: BlockMap, start: int, lost: multiset<int>, s': Store, r': Record)
    requires Removed(s, r, m, start, lost, s', r')
    ensures Removed(s, r, m, start, multiset{}, s', r') <==> lost == multiset{}
  {
    hide Maps, Truncate, Excess;
    if Removed(s, r, m, start, multiset{}, s', r') {
      Cancel(multiset(s.live), lost, multiset{});
    }
  }

  lemma WhatIsLost(s: Store, r: Record, m: BlockMap, start: int)
    requires Maps(s.img, r, m) && 0 <= start <= r.blocks && start < DIRECT + N + N * N
    ensures |m.Data()| == r.blocks
    ensures start < DIRECT ==> Lost(r, m, start) == multiset{} && Exact(m, start)
    ensures DIRECT <= start < DIRECT + N ==> (Lost(r, m, start) == multiset{} <==> start != DIRECT)
    ensures DIRECT <= start < DIRECT + N && start != DIRECT ==> r.blocks > DIRECT
    ensures start >= DIRECT + N ==>
      (Exact(m, start) <==> (start < r.blocks || (start - DIRECT) % N != 0) && Lost(r, m, start) == multiset{})
  {
    hide Single, Double, Triple, Direct, TripleBlocks;
    assert start == DIRECT ==> r.single in Lost(r, m, start);
    if m.t0 != [] {
      TripleIsSome(m);
    }
  }

  lemma TripleIsSome(m: BlockMap)
    requires m.t0 != []
    ensures TripleBlocks(m) != multiset{}
  {
    assert m.t0[0] in TripleBlocks(m);
  }

  /** The start lies within the file, and in a single block that there is to go into. */
  predicate Enters(r: Record, start: int) {
    start <= r.blocks && start < MAX_BLOCKS && (DIRECT <= start ==> WithinSingle(r, start))
  }

  /** When the removal reports success: in the triple region only if the loops do not look for a missing block. */
  predicate Succeeds(r: Record, m: BlockMap, start: int) {
    && Enters(r, start)
    && (DIRECT + N + N * N <= start ==>
          Reaches(|m.t0|, |m.t1|, start - DIRECT - N - N * N) || |m.t1| == N * N)
  }

  lemma WhenSucceeds(s: Store, r: Record, m: BlockMap, start: int)
    requires Maps(s.img, r, m) && 0 <= start
    ensures Enters(r, start) <==>
      start <= r.blocks && start < MAX_BLOCKS && (DIRECT <= start ==> WithinSingle(r, start))
    ensures Succeeds(r, m, start) <==> Enters(r, start) && (DIRECT + N + N * N <= start ==>
      Reaches(|m.t0|, |m.t1|, start - DIRECT - N - N * N) || |m.t1| == N * N)
    ensures DIRECT <= start <= r.blocks && start < DIRECT + N ==> (WithinSingle(r, start) <==> r.blocks > DIRECT)
    ensures DIRECT <= start ==> (WithinSingle(r, start) <==> start < r.blocks || (start - DIRECT) % N != 0)
    ensures start < DIRECT ==> Exact(m, start) || start > r.blocks
    ensures start < DIRECT + N ==> LeavesZeros(m, start)
    ensures start >= DIRECT + N && start < DIRECT + N + N * N ==>
      (LeavesZeros(m, start) <==> start == DIRECT + N || FirstWhole(start - DIRECT - N) == |m.d1|)
    ensures start >= DIRECT + N + N * N ==>
      (LeavesZeros(m, start) <==>
        start == DIRECT + N + N * N || FirstWhole(start - DIRECT - N - N * N) == |m.t1|)
  {
    hide Single, Double, Triple, Direct, Reaches, Aligned;
  }

  method RemoveDatablocksRange(disk: Disk, node: Inode, start: int, ghost m: BlockMap) returns (ok: bool)
    requires disk.Valid() && Prunable(disk.Now(), node.Rec(), m, start)
    modifies disk, disk.mem, node
    ensures disk.Valid()
    ensures ok <==> Succeeds(old(node.Rec()), m, start)
    ensures !ok ==>
      && node.Rec() == old(node.Rec())
      && if Enters(old(node.Rec()), start) && start >= DIRECT + N + N * N then
           StoppedShort(old(disk.Now()), m, start - DIRECT - N - N * N, disk.Now())
         else
           disk.Now() == old(disk.Now())
    ensures Exact(m, start) <==>
      ok && Removed(old(disk.Now()), old(node.Rec()), m, start, multiset{}, disk.Now(), node.Rec())
    ensures ok && start < DIRECT + N + N * N ==>
      Removed(old(disk.Now()), old(node.Rec()), m, start, Lost(old(node.Rec()), m, start), disk.Now(), node.Rec())
    ensures ok && start < DIRECT + N + N * N && old(Clean(disk.img, node.Rec(), m)) ==>
      (Clean(disk.img, node.Rec(), Truncate(m, start)) <==> Exact(m, start) && LeavesZeros(m, start))
    ensures ok && start >= DIRECT + N + N * N ==>
      RanThrough(old(disk.Now()), old(node.Rec()), m, start, disk.Now(), node.Rec())
    ensures Exact(m, start) ==> UpperKept(old(disk.img), disk.img, Truncate(m, start))
    ensures Exact(m, start) && old(Clean(disk.img, node.Rec(), m)) ==>
      (Clean(disk.img, node.Rec(), Truncate(m, start)) <==> LeavesZeros(m, start))
  {
    hide disk.Valid, Maps, Clean, Exclusive, Removed, Truncate, Exact, Aligned, Lost, FirstWhole, WithinSingle,
         UpperKept, Succeeds, Enters, StoppedShort, RanThrough, LeavesZeros, Reaches;
    ghost var s, r := disk.Now(), node.Rec();
    WhenSucceeds(s, r, m, start);
    if start > node.blocks {
      Beyond(s, r, m, start);
      return false;
    }
    if start < DIRECT {
      WhatIsLost(s, r, m, start);
      EarlyUpper(s.img, r, m, start);
      ok := RemoveFromDirect(disk, node, start, m);
      return;
    }
    if start < DIRECT + N {
      WhatIsLost(s, r, m, start);
      EarlyUpper(s.img, r, m, start);
      ok := RemoveFromSingle(disk, node, start, m);
      InSingleOutcome(s, r, m, start, ok, disk.Now(), node.Rec());
      return;
    }
    if start < DIRECT + N + N * N {
      WhatIsLost(s, r, m, start);
      ok := RemoveFromDouble(disk, node, start, m);
      InDoubleOutcome(s, r, m, start, ok, disk.Now(), node.Rec());
      return;
    }
    if start < MAX_BLOCKS {
      ok := RemoveFromTriple(disk, node, start, m);
      InTripleOutcome(s, r, m, start);
      return;
    }
    TooFar(m, start);
    ok := false;
  }

  /** Removals that start before the double region keep nothing of the trees above the single block. */
  lemma EarlyUpper(img: Image, r: Record, m: BlockMap, start: int)
    requires Maps(img, r, m) && 0 <= start < DIRECT + N
    ensures forall img' :: UpperKept(img, img', Truncate(m, start))
  {
  }

  lemma Beyond(s: Store, r: Record, m: BlockMap, start: int)
    requires Maps(s.img, r, m) && start > r.blocks
    ensures !Exact(m, start)
  {
  }

  lemma TooFar(m: BlockMap, start: int)
    requires start >= MAX_BLOCKS
    ensures !Exact(m, start)
  {
  }

  lemma InSingleOutcome(s: Store, r: Record, m: BlockMap, start: int, ok: bool, s': Store, r': Record)
    requires Maps(s.img, r, m) && DIRECT <= start <= r.blocks && start < DIRECT + N
    requires ok <==> r.blocks > DIRECT
    requires ok ==> Removed(s, r, m, start, LostSingle(r, start), s', r')
    ensures ok && Removed(s, r, m, start, multiset{}, s', r') <==> Exact(m, start)
    ensures ok ==> Removed(s, r, m, start, Lost(r, m, start), s', r')
    ensures Exact(m, start) ==> start != DIRECT
    ensures ok ==> (Exact(m, start) <==> start != DIRECT)
  {
    WhatIsLost(s, r, m, start);
    hide Maps, Removed;
    if ok {
      NothingLost(s, r, m, start, LostSingle(r, start), s', r');
    }
  }

  lemma InDoubleOutcome(s: Store, r: Record, m: BlockMap, start: int, ok: bool, s': Store, r': Record)
    requires Maps(s.img, r, m) && DIRECT + N <= start <= r.blocks && start < DIRECT + N + N * N
    requires ok <==> start < r.blocks || (start - DIRECT) % N != 0
    requires ok ==> Removed(s, r, m, start, LostTriple(m), s', r')
    ensures ok && Removed(s, r, m, start, multiset{}, s', r') <==> Exact(m, start)
    ensures ok ==> Removed(s, r, m, start, Lost(r, m, start), s', r')
    ensures Exact(m, start) ==> m.t0 == [] || |m.t0| > N * N
    ensures ok ==> (Exact(m, start) <==> m.t0 == [] || |m.t0| > N * N)
  {
    WhatIsLost(s, r, m, start);
    hide Maps, Removed, LostTriple;
    if ok {
      NothingLost(s, r, m, start, LostTriple(m), s', r');
    }
  }

  lemma InTripleOutcome(s: Store, r: Record, m: BlockMap, start: int)
    requires Maps(s.img, r, m) && DIRECT + N + N * N <= start <= r.blocks && start < MAX_BLOCKS
    ensures Exact(m, start) <==> WithinSingle(r, start) && Aligned(start - DIRECT - N - N * N, |m.t0|)
    ensures start < r.blocks ==> WithinSingle(r, start)
  {
    hide Aligned;
  }
}
