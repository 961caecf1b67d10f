/** Who owns which block: the inodes' maps split the blocks in use among them, over every run. */
module Ownership {
  import opened Geometry
  import opened Words
  import opened LayerZero
  import opened Inodes
  import opened InodeTable
  import opened BlockMaps
  import opened Append
  import opened Removal
  import opened RangeRemoval

  /** The disk, the inode table, the map of every inode, and the blocks that failed operations left to no one. */
  datatype Volume = Volume(store: Store, slots: seq<Record>, maps: seq<BlockMap>, leaked: multiset<int>)

  ghost function TotalOwned(maps: seq<BlockMap>): multiset<int> {
    if maps == [] then multiset{} else TotalOwned(maps[..|maps| - 1]) + Owned(maps[|maps| - 1])
  }

  /** What delete_inode leaves of a slot: everything cleared but the mode. */
  function Erased(r: Record): Record {
    BlankRecord().(isDir := r.isDir, canWrite := r.canWrite)
  }

  /** A slot that is as if it had been deleted. */
  predicate Blank(r: Record) {
    r == Erased(r)
  }

  ghost predicate SlotsMapped(img: Image, slots: seq<Record>, maps: seq<BlockMap>) {
    && |maps| == INODE_BLOCK_COUNT && |slots| == INODE_BLOCK_COUNT * INODES_PER_BLOCK
    && (forall n :: InodeNumValid(n) ==> Maps(img, slots[n], maps[n]))
    && forall n :: InodeNumValid(n) && !slots[n].isAllocated ==> maps[n] == EMPTY_MAP && Blank(slots[n])
  }

  /**
   * Every inode's addresses lead to the blocks of its map, unallocated slots are blank, and the live blocks are
   * the disjoint union of what the inodes own and what has leaked.
   */
  ghost predicate Sound(v: Volume) {
    && |v.maps| == INODE_BLOCK_COUNT && |v.slots| == INODE_BLOCK_COUNT * INODES_PER_BLOCK
    && SlotsMapped(v.store.img, v.slots, v.maps)
    && multiset(v.store.live) == TotalOwned(v.maps) + v.leaked
  }

  /** All index slots past the ends of the files are zero. */
  ghost predicate Tidy(v: Volume) {
    && |v.maps| == INODE_BLOCK_COUNT <= |v.slots|
    && forall n :: InodeNumValid(n) ==> Clean(v.store.img, v.slots[n], v.maps[n])
  }

  // ----- sums of owned blocks -----

  lemma {:induction false} TotalUpdate(maps: seq<BlockMap>, n: int, m: BlockMap)
    requires 0 <= n < |maps|
    ensures TotalOwned(maps[n := m]) + Owned(maps[n]) == TotalOwned(maps) + Owned(m)
    decreases |maps|
  {
    hide Owned;
    var last := |maps| - 1;
    if n < last {
      TotalUpdate(maps[..last], n, m);
      assert maps[n := m][..last] == maps[..last][n := m] && maps[n := m][last] == maps[last];
      assert maps[..last][n] == maps[n];
      AddToBoth(TotalOwned(maps[..last][n := m]), Owned(maps[n]), TotalOwned(maps[..last]), Owned(m),
                Owned(maps[last]));
    } else {
      assert maps[n := m][..last] == maps[..last];
    }
  }

  lemma AddToBoth(a: multiset<int>, b: multiset<int>, c: multiset<int>, d: multiset<int>, x: multiset<int>)
    requires a + b == c + d
    ensures (a + x) + b == (c + x) + d
  {
    assert (a + x) + b == (a + b) + x == (c + d) + x;
  }

  lemma {:induction false} OwnedWithin(maps: seq<BlockMap>, n: int)
    requires 0 <= n < |maps|
    ensures Owned(maps[n]) <= TotalOwned(maps)
    decreases |maps|
  {
    hide Owned;
    if n < |maps| - 1 {
      OwnedWithin(maps[..|maps| - 1], n);
    }
  }

  lemma {:induction false} OwnedTwice(maps: seq<BlockMap>, n: int, k: int)
    requires 0 <= n < k < |maps|
    ensures Owned(maps[n]) + Owned(maps[k]) <= TotalOwned(maps)
    decreases |maps|
  {
    hide Owned;
    var last := |maps| - 1;
    if k < last {
      OwnedTwice(maps[..last], n, k);
    } else {
      OwnedWithin(maps[..last], n);
    }
  }

  lemma {:induction false} NoneOwned(maps: seq<BlockMap>)
    requires forall i :: 0 <= i < |maps| ==> maps[i] == EMPTY_MAP
    ensures TotalOwned(maps) == multiset{}
  {
    if maps != [] {
      NoneOwned(maps[..|maps| - 1]);
    }
  }

  /** No block has two owners, or is owned and leaked. */
  lemma OneOwner(v: Volume, n: int, k: int)
    requires Sound(v) && InodeNumValid(n) && InodeNumValid(k)
    ensures Exclusive(v.store.live, v.maps[n])
    ensures n != k ==> forall b :: b in Owned(v.maps[n]) ==> b !in Owned(v.maps[k])
    ensures forall b :: b in Owned(v.maps[n]) ==> b in v.store.live && b !in v.leaked
  {
    hide Owned, SlotsMapped, TotalOwned;
    OwnedWithin(v.maps, n);
    if n < k {
      OwnedTwice(v.maps, n, k);
    } else if k < n {
      OwnedTwice(v.maps, k, n);
    }
    forall b | b in Owned(v.maps[n])
      ensures n != k ==> b !in Owned(v.maps[k])
      ensures b in v.store.live && b !in v.leaked
    {
      assert multiset(v.store.live)[b] == TotalOwned(v.maps)[b] + v.leaked[b];
      assert Owned(v.maps[n])[b] <= TotalOwned(v.maps)[b];
      assert n != k ==> (Owned(v.maps[n]) + Owned(v.maps[k]))[b] <= TotalOwned(v.maps)[b];
    }
  }

  // ----- what happens to one inode leaves the others alone -----

  /** Every live block that m does not own is still live and holds what it held. */
  ghost predicate Elsewhere(s: Store, m: BlockMap, s': Store) {
    forall b :: 0 <= b < BLOCK_COUNT && b in s.live && b !in Owned(m) ==> b in s'.live && s'.img[b] == s.img[b]
  }

  lemma MapsElsewhere(img: Image, img': Image, r: Record, m: BlockMap)
    requires Maps(img, r, m)
    requires forall b :: InData(b) && m.InIndex(b) ==> img'[b] == img[b]
    ensures Maps(img', r, m)
    ensures Clean(img, r, m) ==> Clean(img', r, m)
  {
    hide Word;
    PackFrame(img, img', m.s1, m.s0);
    PackFrame(img, img', m.d1, m.d0);
    PackFrame(img, img', m.d2, m.d1);
    PackFrame(img, img', m.t1, m.t0);
    PackFrame(img, img', m.t2, m.t1);
    PackFrame(img, img', m.t3, m.t2);
    hide Pack, Tail;
  }

  lemma OtherInode(v: Volume, n: int, k: int, s': Store)
    requires Sound(v) && InodeNumValid(n) && InodeNumValid(k) && n != k && Elsewhere(v.store, v.maps[n], s')
    ensures Maps(s'.img, v.slots[k], v.maps[k])
    ensures Clean(v.store.img, v.slots[k], v.maps[k]) ==> Clean(s'.img, v.slots[k], v.maps[k])
    ensures forall b :: InData(b) && b in Owned(v.maps[k]) ==> b in s'.live && s'.img[b] == v.store.img[b]
  {
    assert Maps(v.store.img, v.slots[k], v.maps[k]);
    OneOwner(v, k, n);
    hide Maps, Clean, Sound;
    forall b | v.maps[k].InIndex(b)
      ensures b in Owned(v.maps[k])
    {
      OwnedIsLive(v.store.live, v.maps[k], b);
    }
    hide Owned;
    MapsElsewhere(v.store.img, s'.img, v.slots[k], v.maps[k]);
  }

  /** The volume with another record and map for inode n. */
  ghost function Replaced(v: Volume, n: int, s': Store, r': Record, m': BlockMap, leaked': multiset<int>): Volume
    requires 0 <= n < |v.maps| && n < |v.slots|
  {
    Volume(s', v.slots[n := r'], v.maps[n := m'], leaked')
  }

  /** Replacing one inode keeps the volume sound when the books balance. */
  lemma ReplacedSound(v: Volume, n: int, s': Store, r': Record, m': BlockMap, leaked': multiset<int>)
    requires Sound(v) && InodeNumValid(n) && Elsewhere(v.store, v.maps[n], s')
    requires Maps(s'.img, r', m') && (!r'.isAllocated ==> m' == EMPTY_MAP && Blank(r'))
    requires multiset(s'.live) + Owned(v.maps[n]) + v.leaked == multiset(v.store.live) + Owned(m') + leaked'
    ensures Sound(Replaced(v, n, s', r', m', leaked'))
    ensures Tidy(v) && Clean(s'.img, r', m') ==> Tidy(Replaced(v, n, s', r', m', leaked'))
  {
    hide Maps, Clean, Owned, TotalOwned, Blank, Elsewhere;
    var v' := Replaced(v, n, s', r', m', leaked');
    forall k | InodeNumValid(k) && k != n
      ensures Maps(s'.img, v.slots[k], v.maps[k])
      ensures Clean(v.store.img, v.slots[k], v.maps[k]) ==> Clean(s'.img, v.slots[k], v.maps[k])
    {
      OtherInode(v, n, k, s');
    }
    TotalUpdate(v.maps, n, m');
    Balance(multiset(s'.live), Owned(v.maps[n]), v.leaked, TotalOwned(v.maps), Owned(m'), leaked', TotalOwned(v'.maps));
  }

  lemma Balance(live': multiset<int>, was: multiset<int>, leaked: multiset<int>, total: multiset<int>,
                now: multiset<int>, leaked': multiset<int>, total': multiset<int>)
    requires live' + was + leaked == total + leaked + now + leaked' && total' + was == total + now
    ensures live' == total' + leaked'
  {
    forall b
      ensures live'[b] == (total' + leaked')[b]
    {
      assert (live' + was + leaked)[b] == (total + leaked + now + leaked')[b];
      assert (total' + was)[b] == (total + now)[b];
    }
  }

  // ----- what each operation does to the volume -----

  /** Block b has been allocated, and perhaps written. */
  ghost predicate TakenAs(s: Store, b: int, mid: Store) {
    InData(b) && b !in s.live && mid.live == s.live + {b} && mid.img == s.img[b := mid.img[b]]
  }

  lemma AppendElsewhere(s: Store, m: BlockMap, b: int, mid: Store, s': Store)
    requires TakenAs(s, b, mid) && mid.live <= s'.live && Untouched(mid.img, s'.img, mid.live, m)
    ensures Elsewhere(s, m, s')
  {
    forall x | m.InIndex(x)
      ensures x in Owned(m)
    {
      IndexIsOwned(m, x);
    }
    hide Owned;
  }

  lemma AppendBalance(s: Store, m: BlockMap, b: int, mid: Store, s': Store, m': BlockMap)
    requires b !in s.live && mid.live == s.live + {b} && Accounted(mid, m, b, s', m')
    ensures multiset(s'.live) + Owned(m) == multiset(s.live) + Owned(m')
  {
    hide Owned;
    assert multiset(mid.live) == multiset(s.live) + multiset{b};
    forall x
      ensures (multiset(s'.live) + Owned(m))[x] == (multiset(s.live) + Owned(m'))[x]
    {
      assert (multiset(s'.live) + Owned(m) + multiset{b})[x] == (multiset(mid.live) + Owned(m'))[x];
    }
  }

  /** Allocating a block and appending it to inode n. */
  lemma AppendSound(v: Volume, n: int, b: int, mid: Store, s': Store, r': Record, m': BlockMap)
    requires Sound(v) && InodeNumValid(n) && v.slots[n].isAllocated
    requires TakenAs(v.store, b, mid) && Appended(mid, v.slots[n], v.maps[n], b, s', r', m')
    ensures Elsewhere(v.store, v.maps[n], s')
    ensures Sound(Replaced(v, n, s', r', m', v.leaked))
    ensures Tidy(v) ==> Tidy(Replaced(v, n, s', r', m', v.leaked))
  {
    hide Maps, Clean, Owned, TotalOwned, Blank, Elsewhere, Sound, Replaced, Untouched;
    SlotTidy(v, n, mid.img, b);
    AppendElsewhere(v.store, v.maps[n], b, mid, s');
    AppendBalance(v.store, v.maps[n], b, mid, s', m');
    AddToBoth(multiset(s'.live), Owned(v.maps[n]), multiset(v.store.live), Owned(m'), v.leaked);
    assert multiset(s'.live) + Owned(v.maps[n]) + v.leaked == multiset(v.store.live) + Owned(m') + v.leaked;
    ReplacedSound(v, n, s', r', m', v.leaked);
  }

  /** A block that is not in use is in no map. */
  lemma SlotTidy(v: Volume, n: int, img': Image, b: int)
    requires Sound(v) && InodeNumValid(n) && 0 <= b < BLOCK_COUNT && b !in v.store.live
    requires img' == v.store.img[b := img'[b]]
    ensures Tidy(v) ==> Clean(img', v.slots[n], v.maps[n])
    ensures Maps(img', v.slots[n], v.maps[n])
    ensures b !in Owned(v.maps[n]) && |v.maps| == INODE_BLOCK_COUNT && n < |v.slots|
  {
    OneOwner(v, n, n);
    assert Maps(v.store.img, v.slots[n], v.maps[n]);
    forall x | v.maps[n].InIndex(x)
      ensures x in Owned(v.maps[n])
    {
      IndexIsOwned(v.maps[n], x);
    }
    hide Maps, Clean, Owned, TotalOwned;
    MapsElsewhere(v.store.img, img', v.slots[n], v.maps[n]);
  }

  lemma RemovalElsewhere(s: Store, r: Record, m: BlockMap, k: int, lost: multiset<int>, s': Store, r': Record)
    requires Removed(s, r, m, k, lost, s', r')
    ensures Elsewhere(s, m, s')
    ensures multiset(s'.live) + Owned(m) == multiset(s.live) + Owned(Truncate(m, k)) + lost
  {
    hide Maps, Owned, Truncate, Excess;
    Split(m, k);
    forall x | Truncate(m, k).InIndex(x)
      ensures x in Owned(Truncate(m, k))
    {
      IndexIsOwned(Truncate(m, k), x);
    }
    var kept, excess := Owned(Truncate(m, k)), Excess(m, k);
    Books(multiset(s'.live), excess, multiset(s.live), lost, Owned(m), kept);
    forall x | x in s.live && x !in Owned(m)
      ensures x in s'.live && x !in lost && x !in kept
    {
      NotConcerned(s.live, s'.live, excess, lost, Owned(m), kept, x);
    }
  }

  lemma Books(live': multiset<int>, excess: multiset<int>, live: multiset<int>, lost: multiset<int>,
              owned: multiset<int>, kept: multiset<int>)
    requires live' + excess == live + lost && owned == kept + excess
    ensures live' + owned == live + kept + lost
  {
    forall x
      ensures (live' + owned)[x] == (live + kept + lost)[x]
    {
      assert (live' + excess)[x] == (live + lost)[x];
    }
  }

  lemma NotConcerned(live: set<int>, live': set<int>, excess: multiset<int>, lost: multiset<int>, owned: multiset<int>,
                     kept: multiset<int>, x: int)
    requires multiset(live') + excess == multiset(live) + lost && owned == kept + excess
    requires x in live && x !in owned
    ensures x in live' && x !in lost && x !in kept
  {
    assert (multiset(live') + excess)[x] == (multiset(live) + lost)[x];
    assert owned[x] == kept[x] + excess[x] && multiset(live')[x] <= 1;
  }

  /** Removing the blocks of inode n from block k on; what is lost joins what has leaked. */
  lemma RemovalSound(v: Volume, n: int, k: int, lost: multiset<int>, s': Store, r': Record)
    requires Sound(v) && InodeNumValid(n) && v.slots[n].isAllocated
    requires Removed(v.store, v.slots[n], v.maps[n], k, lost, s', r')
    ensures Elsewhere(v.store, v.maps[n], s')
    ensures Sound(Replaced(v, n, s', r', Truncate(v.maps[n], k), v.leaked + lost))
    ensures Tidy(v) && Clean(s'.img, r', Truncate(v.maps[n], k)) ==>
      Tidy(Replaced(v, n, s', r', Truncate(v.maps[n], k), v.leaked + lost))
  {
    hide Maps, Clean, Owned, TotalOwned, Blank, Elsewhere, Truncate, Excess, SlotsMapped;
    RemovalElsewhere(v.store, v.slots[n], v.maps[n], k, lost, s', r');
    assert multiset(s'.live) + Owned(v.maps[n]) + v.leaked
      == multiset(v.store.live) + Owned(Truncate(v.maps[n], k)) + (v.leaked + lost);
    ReplacedSound(v, n, s', r', Truncate(v.maps[n], k), v.leaked + lost);
  }

  lemma DeletionSound(v: Volume, n: int, s': Store, r': Record)
    requires Sound(v) && InodeNumValid(n)
    requires Removed(v.store, v.slots[n], v.maps[n], 0, multiset{}, s', r')
    ensures Elsewhere(v.store, v.maps[n], s')
    ensures Sound(Replaced(v, n, s', Erased(v.slots[n]), EMPTY_MAP, v.leaked))
    ensures Tidy(v) ==> Tidy(Replaced(v, n, s', Erased(v.slots[n]), EMPTY_MAP, v.leaked))
  {
    assert Truncate(v.maps[n], 0) == EMPTY_MAP;
    EmptyMaps(s'.img, Erased(v.slots[n]));
    hide Maps, Clean, Owned, TotalOwned, Elsewhere, Truncate, Excess, SlotsMapped;
    RemovalElsewhere(v.store, v.slots[n], v.maps[n], 0, multiset{}, s', r');
    assert multiset(s'.live) + Owned(v.maps[n]) + v.leaked == multiset(v.store.live) + Owned(EMPTY_MAP) + v.leaked;
    ReplacedSound(v, n, s', Erased(v.slots[n]), EMPTY_MAP, v.leaked);
  }

  lemma EmptyMaps(img: Image, r: Record)
    requires Blank(r)
    ensures Maps(img, r, EMPTY_MAP) && Clean(img, r, EMPTY_MAP)
  {
  }

  // ----- runs -----

  /** One step of a run; the parameters that start an operation, and what it met in between. */
  datatype Move =
    | MoveCreate(n: int)
    | MoveExtend(n: int, b: int, mid: Store)
    | MoveFill(n: int, k: int, block: Block)
    | MoveCut(n: int, k: int)
    | MoveErase(n: int, r: Record)
    | MoveEdit(n: int, r: Record)

  /** The same blocks and addresses, and still allocated or not. */
  predicate SameAddresses(r: Record, r': Record) {
    && r'.blocks == r.blocks && r'.direct == r.direct && r'.single == r.single && r'.double == r.double
    && r'.triple == r.triple
  }

  /** What the operations' contracts say about a step. */
  ghost predicate Moved(v: Volume, move: Move, v': Volume)
    requires |v.maps| == |v'.maps| == INODE_BLOCK_COUNT
    requires |v.slots| == |v'.slots| == INODE_BLOCK_COUNT * INODES_PER_BLOCK
  {
    var n := move.n;
    && InodeNumValid(n)
    && var r, m, r', m' := v.slots[n], v.maps[n], v'.slots[n], v'.maps[n];
    && v' == Replaced(v, n, v'.store, r', m', v.leaked)
    && match move
       case MoveCreate(_) =>
         !r.isAllocated && r' == r.(linkCount := 0, isAllocated := true) && m' == m && v'.store == v.store
       case MoveExtend(_, b, mid) =>
         r.isAllocated && TakenAs(v.store, b, mid) && Appended(mid, r, m, b, v'.store, r', m')
       case MoveFill(_, k, block) =>
         && 0 <= k < |m.Data()| && InData(m.Data()[k])
         && r' == r && m' == m && v'.store == v.store.(img := v.store.img[m.Data()[k] := block])
       case MoveCut(_, k) =>
         && r.isAllocated && 0 <= k && Exact(m, k) && LeavesZeros(m, k) && m' == Truncate(m, k)
         && Removed(v.store, r, m, k, multiset{}, v'.store, r')
         && (Clean(v.store.img, r, m) ==> Clean(v'.store.img, r', m'))
       case MoveErase(_, r1) =>
         Removed(v.store, r, m, 0, multiset{}, v'.store, r1) && r' == Erased(r) && m' == EMPTY_MAP
       case MoveEdit(_, r1) =>
         r.isAllocated && r1.isAllocated && SameAddresses(r, r1) && r' == r1 && m' == m && v'.store == v.store
  }

  /** A volume as the disk is created. */
  ghost predicate Fresh(v: Volume) {
    && |v.maps| == INODE_BLOCK_COUNT && |v.slots| == INODE_BLOCK_COUNT * INODES_PER_BLOCK
    && v.store.live == {} && v.leaked == multiset{}
    && (forall n :: 0 <= n < |v.maps| ==> v.maps[n] == EMPTY_MAP)
    && (forall n :: 0 <= n < |v.slots| ==> v.slots[n] == BlankRecord())
  }

  lemma FreshSound(v: Volume)
    requires Fresh(v)
    ensures Sound(v) && Tidy(v)
  {
    NoneOwned(v.maps);
    forall n | InodeNumValid(n)
      ensures Maps(v.store.img, v.slots[n], v.maps[n]) && Clean(v.store.img, v.slots[n], v.maps[n])
    {
      EmptyMaps(v.store.img, v.slots[n]);
    }
    hide Maps, Clean, TotalOwned;
  }

  /** Changing fields that say nothing about blocks. */
  lemma FieldsSound(v: Volume, n: int, r': Record)
    requires Sound(v) && InodeNumValid(n) && SameAddresses(v.slots[n], r')
    requires r'.isAllocated
    ensures Sound(Replaced(v, n, v.store, r', v.maps[n], v.leaked))
    ensures Elsewhere(v.store, v.maps[n], v.store)
    ensures Tidy(v) ==> Tidy(Replaced(v, n, v.store, r', v.maps[n], v.leaked))
    ensures Maps(v.store.img, r', v.maps[n])
    ensures Clean(v.store.img, v.slots[n], v.maps[n]) ==> Clean(v.store.img, r', v.maps[n])
  {
    FieldsMap(v.store.img, v.slots[n], r', v.maps[n]);
    hide Maps, Clean, Owned, TotalOwned;
    ReplacedSound(v, n, v.store, r', v.maps[n], v.leaked);
  }

  lemma FieldsMap(img: Image, r: Record, r': Record, m: BlockMap)
    requires SameAddresses(r, r')
    ensures Maps(img, r, m) <==> Maps(img, r', m)
    ensures Clean(img, r, m) <==> Clean(img, r', m)
  {
  }

  /** Writing one of the data blocks of inode n. */
  lemma FillSound(v: Volume, n: int, k: int, img': Image)
    requires Sound(v) && InodeNumValid(n) && 0 <= k < |v.maps[n].Data()|
    requires forall b :: 0 <= b < BLOCK_COUNT && b != v.maps[n].Data()[k] ==> img'[b] == v.store.img[b]
    ensures Elsewhere(v.store, v.maps[n], v.store.(img := img'))
    ensures Maps(img', v.slots[n], v.maps[n])
    ensures Clean(v.store.img, v.slots[n], v.maps[n]) ==> Clean(img', v.slots[n], v.maps[n])
    ensures Sound(Replaced(v, n, v.store.(img := img'), v.slots[n], v.maps[n], v.leaked))
    ensures Tidy(v) ==> Tidy(Replaced(v, n, v.store.(img := img'), v.slots[n], v.maps[n], v.leaked))
  {
    var m := v.maps[n];
    var b := m.Data()[k];
    IndexIsOwned(m, b);
    OneOwner(v, n, n);
    DataIsNotIndex(v.store.live, m, b);
    assert Maps(v.store.img, v.slots[n], m);
    hide Maps, Clean, Owned, TotalOwned;
    MapsElsewhere(v.store.img, img', v.slots[n], m);
    ReplacedSound(v, n, v.store.(img := img'), v.slots[n], m, v.leaked);
  }

  lemma DataIsNotIndex(live: set<int>, m: BlockMap, b: int)
    requires Exclusive(live, m) && b in m.Data()
    ensures !m.InIndex(b)
  {
    OnlyOne(live, m, b);
  }

  /** Every step keeps the volume sound and tidy, and leaves the other inodes and the contents of their blocks alone. */
  lemma MoveKeeps(v: Volume, move: Move, v': Volume)
    requires Sound(v) && Tidy(v)
    requires |v'.maps| == INODE_BLOCK_COUNT && |v'.slots| == INODE_BLOCK_COUNT * INODES_PER_BLOCK
    requires Moved(v, move, v')
    ensures Sound(v') && Tidy(v') && v'.leaked == v.leaked
    ensures forall k :: InodeNumValid(k) && k != move.n ==> v'.slots[k] == v.slots[k] && v'.maps[k] == v.maps[k]
    ensures Elsewhere(v.store, v.maps[move.n], v'.store)
  {
    hide Maps, Clean, Owned, TotalOwned, Sound, Tidy, Removed, Truncate, Excess, Appended, TakenAs, Exact, LeavesZeros,
         Elsewhere;
    var n := move.n;
    SlotClean(v, n);
    OthersKept(v, n, v');
    match move
    case MoveCreate(_) =>
      FieldsSound(v, n, v'.slots[n]);
    case MoveExtend(_, b, mid) =>
      AppendSound(v, n, b, mid, v'.store, v'.slots[n], v'.maps[n]);
    case MoveFill(_, k, block) =>
      FillSound(v, n, k, v'.store.img);
    case MoveCut(_, k) =>
      RemovalSound(v, n, k, multiset{}, v'.store, v'.slots[n]);
      assert v.leaked + multiset{} == v.leaked;
    case MoveErase(_, r1) =>
      DeletionSound(v, n, v'.store, r1);
    case MoveEdit(_, r1) =>
      FieldsSound(v, n, v'.slots[n]);
  }

  lemma OthersKept(v: Volume, n: int, v': Volume)
    requires Sound(v) && InodeNumValid(n)
    requires |v'.maps| == |v.maps| && |v'.slots| == |v.slots|
    requires v' == Replaced(v, n, v'.store, v'.slots[n], v'.maps[n], v.leaked)
    ensures forall k :: InodeNumValid(k) && k != n ==> v'.slots[k] == v.slots[k] && v'.maps[k] == v.maps[k]
  {
  }

  lemma SlotClean(v: Volume, n: int)
    requires Sound(v) && Tidy(v) && InodeNumValid(n)
    ensures |v.maps| == INODE_BLOCK_COUNT && |v.slots| == INODE_BLOCK_COUNT * INODES_PER_BLOCK
    ensures Clean(v.store.img, v.slots[n], v.maps[n])
  {
  }

  ghost predicate IsPath(run: seq<Volume>, moves: seq<Move>) {
    && |run| == |moves| + 1
    && (forall i :: 0 <= i < |run| ==>
          |run[i].maps| == INODE_BLOCK_COUNT && |run[i].slots| == INODE_BLOCK_COUNT * INODES_PER_BLOCK)
    && forall i :: 0 <= i < |moves| ==> Moved(run[i], moves[i], run[i + 1])
  }

  ghost predicate IsRun(run: seq<Volume>, moves: seq<Move>) {
    IsPath(run, moves) && Fresh(run[0])
  }

  /** At every point of every run from a fresh disk, the live blocks are exactly what the inodes own, each once. */
  lemma {:induction false} RunConserves(run: seq<Volume>, moves: seq<Move>, i: nat)
    requires IsRun(run, moves) && i < |run|
    ensures Sound(run[i]) && Tidy(run[i])
    ensures multiset(run[i].store.live) == TotalOwned(run[i].maps)
    ensures run[i].leaked == multiset{}
  {
    hide Sound, Tidy, Moved, TotalOwned;
    FreshSound(run[0]);
    PathKeeps(run, moves, i);
    LiveIsOwned(run[i]);
  }

  /** Every point of every path keeps what its start has, and leaks nothing. */
  lemma {:induction false} PathKeeps(run: seq<Volume>, moves: seq<Move>, i: nat)
    requires IsPath(run, moves) && i < |run| && Sound(run[0]) && Tidy(run[0])
    ensures Sound(run[i]) && Tidy(run[i]) && run[i].leaked == run[0].leaked
  {
    hide Sound, Tidy, Moved;
    if i > 0 {
      PathKeeps(run, moves, i - 1);
      assert Moved(run[i - 1], moves[i - 1], run[i - 1 + 1]);
      MoveKeeps(run[i - 1], moves[i - 1], run[i]);
    }
  }

  /** Some steps lead from one volume to the other. */
  ghost predicate Leads(v: Volume, v': Volume) {
    exists run, moves :: IsPath(run, moves) && run[0] == v && run[|moves|] == v'
  }

  lemma LeadsNowhere(v: Volume)
    requires |v.maps| == INODE_BLOCK_COUNT && |v.slots| == INODE_BLOCK_COUNT * INODES_PER_BLOCK
    ensures Leads(v, v)
  {
    assert IsPath([v], []);
  }

  lemma LeadsFar(v: Volume, v1: Volume, v2: Volume)
    requires Leads(v, v1) && Leads(v1, v2)
    ensures Leads(v, v2)
  {
    var run1, moves1 :| IsPath(run1, moves1) && run1[0] == v && run1[|moves1|] == v1;
    var run2, moves2 :| IsPath(run2, moves2) && run2[0] == v1 && run2[|moves2|] == v2;
    PathsJoin(run1, moves1, run2, moves2);
  }

  lemma PathsJoin(run1: seq<Volume>, moves1: seq<Move>, run2: seq<Volume>, moves2: seq<Move>)
    requires IsPath(run1, moves1) && IsPath(run2, moves2) && run1[|moves1|] == run2[0]
    ensures var run := run1[..|moves1|] + run2;
      && IsPath(run, moves1 + moves2) && run[0] == run1[0] && run[|moves1 + moves2|] == run2[|moves2|]
  {
    hide Moved;
    var n := |moves1|;
    var run, moves := run1[..n] + run2, moves1 + moves2;
    forall i | 0 <= i < |moves|
      ensures Moved(run[i], moves[i], run[i + 1])
    {
      if i < n {
        assert Moved(run1[i], moves1[i], run1[i + 1]);
      } else {
        assert Moved(run2[i - n], moves2[i - n], run2[i - n + 1]);
      }
    }
  }

  lemma LeadsOne(v: Volume, move: Move, v': Volume)
    requires |v.maps| == |v'.maps| == INODE_BLOCK_COUNT
    requires |v.slots| == |v'.slots| == INODE_BLOCK_COUNT * INODES_PER_BLOCK
    requires Moved(v, move, v')
    ensures Leads(v, v')
  {
    hide Moved;
    assert IsPath([v, v'], [move]);
  }

  /**
   * From a fresh disk, whatever was done by the operations that lead from volume to volume, the live blocks are exactly
   * what the inodes own, each once, and nothing has leaked.
   */
  lemma FreshConserves(v: Volume, v': Volume)
    requires Fresh(v) && Leads(v, v')
    ensures Sound(v') && Tidy(v') && v'.leaked == multiset{} && multiset(v'.store.live) == TotalOwned(v'.maps)
  {
    hide Sound, Tidy, Moved, TotalOwned, Fresh;
    var run, moves :| IsPath(run, moves) && run[0] == v && run[|moves|] == v';
    RunConserves(run, moves, |moves|);
  }

  lemma LiveIsOwned(v: Volume)
    requires Sound(v) && v.leaked == multiset{}
    ensures multiset(v.store.live) == TotalOwned(v.maps)
  {
  }
}
