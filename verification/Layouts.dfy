/** Files of every length: for each there is a disk that holds one, with all its blocks different. */
module Layouts {
  import opened Geometry
  import opened Words
  import opened FreeList
  import opened LayerZero
  import opened Inodes
  import opened InodeTable
  import opened BlockMaps
  import opened Append
  import opened Removal
  import opened RemoveEarly
  import opened RemoveDouble
  import opened RemoveTriple
  import opened RangeRemoval

  // ----- a disk that holds a given map -----

  /** Layers of the sizes that an inode's trees can have. */
  ghost predicate Shaped(m: BlockMap) {
    && Staircase(m) && |m.direct| <= DIRECT && AllInData(m.direct)
    && |m.s1| <= 1 && |m.d2| <= 1 && |m.t3| <= 1
    && Stacked(m.s1, m.s0) && Stacked(m.d1, m.d0) && Stacked(m.d2, m.d1)
    && Stacked(m.t1, m.t0) && Stacked(m.t2, m.t1) && Stacked(m.t3, m.t2)
  }

  /** As many parents as the children need. */
  ghost predicate Stacked(parents: seq<int>, children: seq<int>) {
    AllInData(parents) && AllInData(children) && |children| <= |parents| * N < |children| + N
  }

  /** An index block with the given addresses, and zeros behind them. */
  ghost function AddressBlock(addresses: seq<int>): Block
    requires |addresses| <= N && AllInData(addresses)
  {
    if addresses == [] then ZeroBlock()
    else
      var n := |addresses| - 1;
      PutWord(AddressBlock(addresses[..n]), n, addresses[n])
  }

  lemma {:induction false} AddressBlockWords(addresses: seq<int>)
    requires |addresses| <= N && AllInData(addresses)
    ensures forall j :: 0 <= j < N ==> Word(AddressBlock(addresses), j) == if j < |addresses| then addresses[j] else 0
  {
    hide Word, PutWord;
    if addresses == [] {
      ZeroBlockWords();
    } else {
      var n := |addresses| - 1;
      AddressBlockWords(addresses[..n]);
      PutWordAll(AddressBlock(addresses[..n]), n, addresses[n]);
    }
  }

  /** What parent i holds of the children. */
  ghost function ShareOf(children: seq<int>, i: int): (s: seq<int>)
    requires 0 <= i && i * N <= |children| && AllInData(children)
    ensures |s| <= N && AllInData(s)
  {
    if (i + 1) * N <= |children| then children[i * N..(i + 1) * N] else children[i * N..]
  }

  /** The image once the first k parents have been written. */
  ghost function WithLayer(img: Image, parents: seq<int>, children: seq<int>, k: nat): Image
    requires Stacked(parents, children) && k <= |parents|
  {
    if k == 0 then img
    else WithLayer(img, parents, children, k - 1)[parents[k - 1] := AddressBlock(ShareOf(children, k - 1))]
  }

  lemma {:induction false} LayerWritten(img: Image, parents: seq<int>, children: seq<int>, k: nat)
    requires Stacked(parents, children) && k <= |parents| && NoDuplicates(parents)
    ensures forall i :: 0 <= i < k ==>
      WithLayer(img, parents, children, k)[parents[i]] == AddressBlock(ShareOf(children, i))
    ensures forall b :: 0 <= b < BLOCK_COUNT && b !in parents[..k] ==> WithLayer(img, parents, children, k)[b] == img[b]
  {
    hide AddressBlock, ShareOf;
    if k > 0 {
      LayerWritten(img, parents, children, k - 1);
      assert parents[..k] == parents[..k - 1] + [parents[k - 1]];
    }
  }

  /** A written layer is packed, with zeros at its end; blocks that are no parents keep their content. */
  lemma LayerPacked(img: Image, parents: seq<int>, children: seq<int>)
    requires Stacked(parents, children) && NoDuplicates(parents)
    ensures var img' := WithLayer(img, parents, children, |parents|);
      && Pack(img', parents, children) && Tail(img', parents, children)
      && forall b :: 0 <= b < BLOCK_COUNT && b !in parents ==> img'[b] == img[b]
  {
    hide Word, AddressBlock, WithLayer, ShareOf;
    var img' := WithLayer(img, parents, children, |parents|);
    LayerWritten(img, parents, children, |parents|);
    assert parents[..|parents|] == parents;
    forall i, j | 0 <= i < |parents| && 0 <= j < N
      ensures Word(img'[parents[i]], j) == if i * N + j < |children| then children[i * N + j] else 0
    {
      ShareWord(children, i, j);
      assert img'[parents[i]] == AddressBlock(ShareOf(children, i));
    }
  }

  lemma ShareWord(children: seq<int>, i: int, j: int)
    requires 0 <= i && i * N <= |children| && AllInData(children) && 0 <= j < N
    ensures Word(AddressBlock(ShareOf(children, i)), j) == if i * N + j < |children| then children[i * N + j] else 0
  {
    hide Word, AddressBlock;
    AddressBlockWords(ShareOf(children, i));
  }

  /** The six index layers, written one after the other. */
  ghost function Written(m: BlockMap): Image
    requires Shaped(m)
  {
    var img := seq(BLOCK_COUNT, _ => ZeroBlock());
    var img := WithLayer(img, m.s1, m.s0, |m.s1|);
    var img := WithLayer(img, m.d1, m.d0, |m.d1|);
    var img := WithLayer(img, m.d2, m.d1, |m.d2|);
    var img := WithLayer(img, m.t1, m.t0, |m.t1|);
    var img := WithLayer(img, m.t2, m.t1, |m.t2|);
    WithLayer(img, m.t3, m.t2, |m.t3|)
  }

  function First(top: seq<int>): int {
    if top == [] then 0 else top[0]
  }

  function RecordOf(m: BlockMap): Record {
    BlankRecord().(blocks := |m.Data()|, isAllocated := true, linkCount := 1,
                   direct := m.direct + seq(if |m.direct| <= DIRECT then DIRECT - |m.direct| else 0, _ => 0),
                   single := First(m.s1), double := First(m.d2), triple := First(m.t3))
  }

  ghost predicate PackedLayer(img: Image, parents: seq<int>, children: seq<int>) {
    Pack(img, parents, children) && Tail(img, parents, children)
  }

  /** Writing another layer keeps a packed one. */
  lemma KeepsLayer(img: Image, img': Image, parents: seq<int>, children: seq<int>, written: seq<int>)
    requires PackedLayer(img, parents, children)
    requires forall b :: 0 <= b < BLOCK_COUNT && b !in written ==> img'[b] == img[b]
    requires forall x :: x in parents ==> x !in written
    ensures PackedLayer(img', parents, children)
  {
    PackFrame(img, img', parents, children);
  }

  /** Every map of the right shape whose blocks are all different is held by some disk. */
  lemma Held(live: set<int>, m: BlockMap)
    requires Shaped(m) && Exclusive(live, m)
    ensures Maps(Written(m), RecordOf(m), m) && Clean(Written(m), RecordOf(m), m)
  {
    hide Exclusive, Owned, Written, Pack, Tail, NoDuplicates, AllInData, Stacked;
    Layers(live, m);
    IndexApart(live, m);
    LayersHeld(m);
    var r := RecordOf(m);
    assert forall i :: 0 <= i < |m.direct| ==> r.direct[i] == m.direct[i];
  }

  lemma LayersHeld(m: BlockMap)
    requires Shaped(m)
    requires NoDuplicates(m.s1) && NoDuplicates(m.d1) && NoDuplicates(m.d2)
    requires NoDuplicates(m.t1) && NoDuplicates(m.t2) && NoDuplicates(m.t3)
    requires forall x :: x in m.s1 ==> x !in m.d1 && x !in m.d2 && x !in m.t1 && x !in m.t2 && x !in m.t3
    requires forall x :: x in m.d1 ==> x !in m.d2 && x !in m.t1 && x !in m.t2 && x !in m.t3
    requires forall x :: x in m.d2 ==> x !in m.t1 && x !in m.t2 && x !in m.t3
    requires forall x :: x in m.t1 ==> x !in m.t2 && x !in m.t3
    requires forall x :: x in m.t2 ==> x !in m.t3
    ensures PackedLayer(Written(m), m.s1, m.s0)
    ensures PackedLayer(Written(m), m.d1, m.d0) && PackedLayer(Written(m), m.d2, m.d1)
    ensures PackedLayer(Written(m), m.t1, m.t0) && PackedLayer(Written(m), m.t2, m.t1)
    ensures PackedLayer(Written(m), m.t3, m.t2)
  {
    var i0: Image := seq(BLOCK_COUNT, _ => ZeroBlock());
    var i1 := WithLayer(i0, m.s1, m.s0, |m.s1|);
    var i2 := WithLayer(i1, m.d1, m.d0, |m.d1|);
    var i3 := WithLayer(i2, m.d2, m.d1, |m.d2|);
    var i4 := WithLayer(i3, m.t1, m.t0, |m.t1|);
    var i5 := WithLayer(i4, m.t2, m.t1, |m.t2|);
    var i6 := WithLayer(i5, m.t3, m.t2, |m.t3|);
    assert Written(m) == i6;
    hide Written;
    LayerPacked(i0, m.s1, m.s0);
    LayerPacked(i1, m.d1, m.d0);
    LayerPacked(i2, m.d2, m.d1);
    LayerPacked(i3, m.t1, m.t0);
    LayerPacked(i4, m.t2, m.t1);
    LayerPacked(i5, m.t3, m.t2);
    assert PackedLayer(i1, m.s1, m.s0) && PackedLayer(i2, m.d1, m.d0) && PackedLayer(i3, m.d2, m.d1);
    assert PackedLayer(i4, m.t1, m.t0) && PackedLayer(i5, m.t2, m.t1) && PackedLayer(i6, m.t3, m.t2);
    hide WithLayer, PackedLayer, Shaped, NoDuplicates, Pack, Tail;
    KeepsLayer(i1, i2, m.s1, m.s0, m.d1);
    KeepsLayer(i2, i3, m.s1, m.s0, m.d2);
    KeepsLayer(i3, i4, m.s1, m.s0, m.t1);
    KeepsLayer(i4, i5, m.s1, m.s0, m.t2);
    KeepsLayer(i5, i6, m.s1, m.s0, m.t3);
    KeepsLayer(i2, i3, m.d1, m.d0, m.d2);
    KeepsLayer(i3, i4, m.d1, m.d0, m.t1);
    KeepsLayer(i4, i5, m.d1, m.d0, m.t2);
    KeepsLayer(i5, i6, m.d1, m.d0, m.t3);
    KeepsLayer(i3, i4, m.d2, m.d1, m.t1);
    KeepsLayer(i4, i5, m.d2, m.d1, m.t2);
    KeepsLayer(i5, i6, m.d2, m.d1, m.t3);
    KeepsLayer(i4, i5, m.t1, m.t0, m.t2);
    KeepsLayer(i5, i6, m.t1, m.t0, m.t3);
    KeepsLayer(i5, i6, m.t2, m.t1, m.t3);
  }

  // ----- a map of any length, in consecutive blocks -----

  /** The blocks from `base` on. */
  function Run(base: int, n: int): (s: seq<int>)
    ensures |s| == if n < 0 then 0 else n
  {
    seq(if n < 0 then 0 else n, i => base + i)
  }

  /** How many of x items a region with room for `most` takes. */
  function Portion(x: int, most: nat): nat {
    if x <= 0 then 0 else if x < most then x else most
  }

  /** Layers of the given sizes, one after the other from `base` on. */
  function Laid(base: int, c: nat, s: nat, s1: nat, d: nat, d1: nat, d2: nat, t: nat, t1: nat, t2: nat,
                t3: nat): BlockMap {
    var a := base + c + s + s1;
    var b := a + d + d1 + d2;
    BlockMap(
      Run(base, c), Run(base + c, s), Run(base + c + s, s1),
      Run(a, d), Run(a + d, d1), Run(a + d + d1, d2),
      Run(b, t), Run(b + t, t1), Run(b + t + t1, t2), Run(b + t + t1 + t2, t3))
  }

  /** The blocks of a file of n blocks, laid out from `base` on. */
  function FileOf(n: int, base: int): BlockMap {
    var c, s, d, t := Portion(n, DIRECT), Portion(n - DIRECT, N), Portion(n - DIRECT - N, N * N), Beyond3(n);
    CeilsAreNatural(s, d, t);
    Laid(base, c, s, Ceil(s), d, Ceil(d), Ceil(Ceil(d)), t, Ceil(t), Ceil(Ceil(t)), Ceil(Ceil(Ceil(t))))
  }

  /** How many of n data blocks lie in the triple region. */
  function Beyond3(n: int): nat {
    if n > DIRECT + N + N * N then n - DIRECT - N - N * N else 0
  }

  /** How many blocks such a file takes, index blocks included. */
  function Footprint(n: int): int {
    var s, d, t := Portion(n - DIRECT, N), Portion(n - DIRECT - N, N * N), Beyond3(n);
    n + Ceil(s) + Ceil(d) + Ceil(Ceil(d)) + Ceil(t) + Ceil(Ceil(t)) + Ceil(Ceil(Ceil(t)))
  }

  /** The footprint region by region; at a border both readings agree. */
  lemma FootprintIs(n: int)
    requires 0 <= n <= MAX_BLOCKS
    ensures n <= DIRECT ==> Footprint(n) == n
    ensures DIRECT <= n <= DIRECT + N ==> Footprint(n) == n + Ceil(n - DIRECT)
    ensures DIRECT + N <= n <= DIRECT + N + N * N ==>
      Footprint(n) == n + 1 + Ceil(n - DIRECT - N) + Ceil(Ceil(n - DIRECT - N))
    ensures var t := n - DIRECT - N - N * N;
      0 <= t ==> Footprint(n) == n + 2 + N + Ceil(t) + Ceil(Ceil(t)) + Ceil(Ceil(Ceil(t)))
  {
    FullCeils();
    hide Ceil;
  }

  lemma FullCeils()
    ensures Ceil(0) == 0 && Ceil(N) == 1 && Ceil(N * N) == N
  {
  }

  /** One block more takes itself and the index blocks that its position asks for. */
  lemma FootprintGrows(n: int)
    requires 0 <= n < MAX_BLOCKS
    ensures Footprint(n + 1) == Footprint(n) + 1 + IndexBlocksFor(n)
  {
    hide Footprint, Ceil;
    FootprintIs(n);
    FootprintIs(n + 1);
    if DIRECT + N + N * N <= n {
      CeilsGrow(n - DIRECT - N - N * N);
    } else if DIRECT + N <= n {
      CeilsGrow(n - DIRECT - N);
    } else if DIRECT <= n {
      CeilGrows(n - DIRECT);
    }
  }

  /** How one child more adds to the index blocks of the three levels above it. */
  lemma CeilsGrow(x: int)
    requires 0 <= x
    ensures Ceil(x + 1) == Ceil(x) + if x % N == 0 then 1 else 0
    ensures Ceil(Ceil(x + 1)) == Ceil(Ceil(x)) + if x % (N * N) == 0 then 1 else 0
    ensures x < N * N * N ==> Ceil(Ceil(Ceil(x + 1))) == Ceil(Ceil(Ceil(x))) + if x == 0 then 1 else 0
    ensures x % (N * N) == 0 ==> x % N == 0
  {
    SquareMultiple(x);
    CeilGrows(x);
    if x % N == 0 {
      CeilGrows(x / N);
      assert x % (N * N) == 0 <==> x / N % N == 0;
      if x % (N * N) == 0 {
        CeilGrows(x / N / N);
      }
    }
  }

  lemma CeilGrows(x: int)
    requires 0 <= x
    ensures Ceil(x + 1) == Ceil(x) + if x % N == 0 then 1 else 0
    ensures x % N == 0 ==> Ceil(x) == x / N && Ceil(x + 1) == x / N + 1
  {
  }

  lemma {:induction false} FootprintMore(a: int, b: int)
    requires 0 <= a <= b <= MAX_BLOCKS
    ensures b - a <= Footprint(b) - Footprint(a)
    decreases b - a
  {
    if a < b {
      FootprintMore(a, b - 1);
      FootprintGrows(b - 1);
    }
  }

  lemma RunJoined(base: int, k: nat, n: nat)
    ensures multiset(Run(base, k)) + multiset(Run(base + k, n)) == multiset(Run(base, k + n))
  {
    assert Run(base, k) + Run(base + k, n) == Run(base, k + n);
  }

  lemma RunIsRange(base: int, n: nat)
    ensures multiset(Run(base, n)) == multiset(Range(base, base + n))
  {
    hide Run;
    forall x
      ensures multiset(Run(base, n))[x] == multiset(Range(base, base + n))[x]
    {
      RunCounts(base, n, x);
    }
  }

  lemma {:induction false} RunCounts(base: int, n: nat, x: int)
    ensures multiset(Run(base, n))[x] == if base <= x < base + n then 1 else 0
  {
    if n > 0 {
      RunCounts(base, n - 1, x);
      assert Run(base, n) == Run(base, n - 1) + [base + n - 1];
      hide Run;
      assert multiset(Run(base, n)) == multiset(Run(base, n - 1)) + multiset{base + n - 1};
    }
  }

  lemma RunsOfRegion(base: int, done: nat, k: nat, k1: nat, k2: nat)
    ensures multiset(Run(base, done)) + multiset(Run(base + done, k)) + multiset(Run(base + done + k, k1))
      + multiset(Run(base + done + k + k1, k2)) == multiset(Run(base, done + k + k1 + k2))
  {
    hide Run;
    RunJoined(base, done, k);
    RunJoined(base, done + k, k1);
    RunJoined(base, done + k + k1, k2);
  }

  lemma EarlyRegion(base: int, k: nat, k1: nat, k2: nat)
    ensures multiset(Run(base, k)) + multiset(Run(base + k, k1)) + multiset(Run(base + k + k1, k2))
      == multiset(Run(base, k + k1 + k2))
  {
    hide Run;
    RunJoined(base, k, k1);
    RunJoined(base, k + k1, k2);
  }

  lemma LastRegion(base: int, done: nat, k: nat, k1: nat, k2: nat, k3: nat)
    ensures multiset(Run(base, done)) + multiset(Run(base + done, k)) + multiset(Run(base + done + k, k1))
      + multiset(Run(base + done + k + k1, k2)) + multiset(Run(base + done + k + k1 + k2, k3))
      == multiset(Run(base, done + k + k1 + k2 + k3))
  {
    hide Run;
    RunsOfRegion(base, done, k, k1, k2);
    RunJoined(base, done + k + k1 + k2, k3);
  }

  lemma LaidOwns(base: int, c: nat, s: nat, s1: nat, d: nat, d1: nat, d2: nat, t: nat, t1: nat, t2: nat, t3: nat)
    ensures Owned(Laid(base, c, s, s1, d, d1, d2, t, t1, t2, t3))
      == multiset(Run(base, c + s + s1 + d + d1 + d2 + t + t1 + t2 + t3))
  {
    hide Run;
    EarlyRegion(base, c, s, s1);
    RunsOfRegion(base, c + s + s1, d, d1, d2);
    LastRegion(base, c + s + s1 + d + d1 + d2, t, t1, t2, t3);
  }

  lemma FileOwns(n: int, base: int)
    requires 0 <= n <= MAX_BLOCKS
    ensures Owned(FileOf(n, base)) == multiset(Range(base, base + Footprint(n))) && n <= Footprint(n)
  {
    hide Laid, Run, Range, Ceil, Portion, Owned, Beyond3;
    var c, s, d, t := Portion(n, DIRECT), Portion(n - DIRECT, N), Portion(n - DIRECT - N, N * N), Beyond3(n);
    CeilsAreNatural(s, d, t);
    FillSum(n);
    LaidOwns(base, c, s, Ceil(s), d, Ceil(d), Ceil(Ceil(d)), t, Ceil(t), Ceil(Ceil(t)), Ceil(Ceil(Ceil(t))));
    RunIsRange(base, Footprint(n));
  }

  lemma CeilsAreNatural(s: int, d: int, t: int)
    ensures Ceil(s) >= 0 && Ceil(d) >= 0 && Ceil(Ceil(d)) >= 0
    ensures Ceil(t) >= 0 && Ceil(Ceil(t)) >= 0 && Ceil(Ceil(Ceil(t))) >= 0
  {
  }

  lemma FillSum(n: int)
    requires 0 <= n
    ensures n == Portion(n, DIRECT) + Portion(n - DIRECT, N) + Portion(n - DIRECT - N, N * N)
      + Beyond3(n)
    ensures 0 <= Portion(n, DIRECT) && 0 <= Portion(n - DIRECT, N) && 0 <= Portion(n - DIRECT - N, N * N)
  {
  }

  lemma CeilHolds(n: nat)
    ensures n <= Ceil(n) * N < n + N
  {
  }

  /** The run of parents that n children need, behind the children. */
  lemma RunsStacked(base: int, parents: int, children: int, n: nat, bound: int)
    requires INODE_BLOCK_COUNT < base <= children && base <= parents && bound <= NUM_OF_DATA_BLOCKS
    requires children + n <= bound && parents + Ceil(n) <= bound
    ensures Stacked(Run(parents, Ceil(n)), Run(children, n))
  {
    CeilHolds(n);
    hide Ceil;
  }

  lemma TopSizes(n: int)
    requires 0 <= n <= MAX_BLOCKS
    ensures Ceil(Portion(n - DIRECT, N)) <= 1 && Ceil(Ceil(Portion(n - DIRECT - N, N * N))) <= 1
    ensures Ceil(Ceil(Ceil(Beyond3(n)))) <= 1
    ensures n - DIRECT - N - N * N == Beyond3(n) || n <= DIRECT + N + N * N
  {
  }

  lemma LaidShaped(base: int, c: nat, s: nat, d: nat, t: nat)
    requires INODE_BLOCK_COUNT < base && c <= DIRECT && 0 <= Ceil(s) <= 1 && 0 <= Ceil(d) && 0 <= Ceil(Ceil(d)) <= 1
    requires 0 <= Ceil(t) && 0 <= Ceil(Ceil(t)) && 0 <= Ceil(Ceil(Ceil(t))) <= 1
    requires base + c + s + Ceil(s) + d + Ceil(d) + Ceil(Ceil(d)) + t + Ceil(t) + Ceil(Ceil(t)) + Ceil(Ceil(Ceil(t)))
      <= NUM_OF_DATA_BLOCKS
    requires (s > 0 ==> c == DIRECT) && (d > 0 ==> s == N) && (t > 0 ==> d == N * N)
    ensures
      var m := Laid(base, c, s, Ceil(s), d, Ceil(d), Ceil(Ceil(d)), t, Ceil(t), Ceil(Ceil(t)), Ceil(Ceil(Ceil(t))));
      Shaped(m) && |m.Data()| == c + s + d + t
  {
    hide Stacked, Ceil;
    var a := base + c + s + Ceil(s);
    var b := a + d + Ceil(d) + Ceil(Ceil(d));
    RunsStacked(base, base + c + s, base + c, s, NUM_OF_DATA_BLOCKS);
    RunsStacked(base, a + d, a, d, NUM_OF_DATA_BLOCKS);
    RunsStacked(base, a + d + Ceil(d), a + d, Ceil(d), NUM_OF_DATA_BLOCKS);
    RunsStacked(base, b + t, b, t, NUM_OF_DATA_BLOCKS);
    RunsStacked(base, b + t + Ceil(t), b + t, Ceil(t), NUM_OF_DATA_BLOCKS);
    RunsStacked(base, b + t + Ceil(t) + Ceil(Ceil(t)), b + t + Ceil(t), Ceil(Ceil(t)), NUM_OF_DATA_BLOCKS);
  }

  lemma FileShaped(n: int, base: int)
    requires 0 <= n <= MAX_BLOCKS && INODE_BLOCK_COUNT < base && base + Footprint(n) <= NUM_OF_DATA_BLOCKS
    ensures Shaped(FileOf(n, base)) && |FileOf(n, base).Data()| == n
  {
    hide Ceil, Laid, Shaped;
    var c, s, d, t := Portion(n, DIRECT), Portion(n - DIRECT, N), Portion(n - DIRECT - N, N * N), Beyond3(n);
    CeilsAreNatural(s, d, t);
    TopSizes(n);
    LaidShaped(base, c, s, d, t);
  }

  /** What some disk may hold, with some blocks in use. */
  ghost predicate DiskState(s: Store) {
    exists maxAlloc, head, free :: Allocator(s.img, maxAlloc, head, free) && s.live == LiveBlocks(maxAlloc, free)
  }

  /** Where the blocks of a file on an otherwise empty disk begin. */
  const FIRST := INODE_BLOCK_COUNT + 1

  ghost function FileStore(n: int): Store
    requires Shaped(FileOf(n, FIRST))
  {
    Store(Written(FileOf(n, FIRST)), LiveBlocks(FIRST + Footprint(n), []))
  }

  /** A file of any length that fits on the disk, in the shape that appending leaves. */
  lemma AnyLength(n: int)
    requires 0 <= n <= MAX_BLOCKS && Footprint(n) <= Capacity()
    ensures Shaped(FileOf(n, FIRST))
    ensures DiskState(FileStore(n))
    ensures WellFormed(FileStore(n), RecordOf(FileOf(n, FIRST)), FileOf(n, FIRST))
    ensures RecordOf(FileOf(n, FIRST)).blocks == n
  {
    hide FileOf, Footprint, Shaped, Owned, Written, RecordOf, Maps, Clean, Exclusive, LiveBlocks, DiskState, Capacity;
    var m := FileOf(n, FIRST);
    CapacityIs(Footprint(n));
    FileShaped(n, FIRST);
    FileOwns(n, FIRST);
    InUse(Written(m), m, Footprint(n));
    Held(FileStore(n).live, m);
    RecordBlocks(m);
  }

  lemma CapacityIs(k: int)
    ensures k <= Capacity() <==> FIRST + k <= NUM_OF_DATA_BLOCKS
  {
  }

  lemma InUse(img: Image, m: BlockMap, k: int)
    requires 0 <= k <= Capacity() && Owned(m) == multiset(Range(FIRST, FIRST + k))
    ensures Exclusive(LiveBlocks(FIRST + k, []), m) && DiskState(Store(img, LiveBlocks(FIRST + k, [])))
  {
    hide Owned;
    assert LiveBlocks(FIRST + k, []) == Range(FIRST, FIRST + k);
    assert Allocator(img, FIRST + k, 0, []);
  }

  lemma RecordBlocks(m: BlockMap)
    ensures RecordOf(m).blocks == |m.Data()|
  {
  }

  lemma CleanIsPrunable(s: Store, r: Record, m: BlockMap, start: int)
    requires WellFormed(s, r, m) && 0 <= start
    ensures Prunable(s, r, m, start)
  {
    hide Maps, Clean, Exclusive, Aligned;
  }

  // ----- which lengths and starts fall short -----

  /** The removals that do all they should, by the numbers of blocks before and after. */
  predicate ExactAt(n: int, start: int) {
    && start <= n && start < MAX_BLOCKS && start != DIRECT
    && (DIRECT + N <= start ==> start < n || (start - DIRECT) % N != 0)
    && (DIRECT + N <= start < DIRECT + N + N * N ==> Beyond3(n) == 0 || Beyond3(n) > N * N)
    && (DIRECT + N + N * N <= start ==> Aligned(start - DIRECT - N - N * N, Beyond3(n)))
  }

  /** Of those, the ones that leave no stale address. */
  predicate ZerosAt(n: int, start: int) {
    var d := start - DIRECT - N;
    var t := d - N * N;
    && (0 < d < N * N ==> Ceil(d) == Ceil(Portion(n - DIRECT - N, N * N)))
    && (0 < t ==> Ceil(t) == Ceil(Beyond3(n)))
  }

  lemma SameNumbers(m: BlockMap, n: int, start: int)
    requires 0 <= start && |m.Data()| == n && |m.t0| == Beyond3(n) && |m.d0| == Portion(n - DIRECT - N, N * N)
    requires |m.d1| == Ceil(|m.d0|) && |m.t1| == Ceil(|m.t0|)
    requires start > DIRECT + N ==> FirstWhole(start - DIRECT - N) == Ceil(start - DIRECT - N)
    requires start > DIRECT + N + N * N ==>
      FirstWhole(start - DIRECT - N - N * N) == Ceil(start - DIRECT - N - N * N)
    ensures Exact(m, start) <==> ExactAt(n, start)
    ensures LeavesZeros(m, start) <==> ZerosAt(n, start)
  {
    hide Aligned, FirstWhole, Ceil, Portion;
  }

  lemma ByNumbers(s: Store, r: Record, m: BlockMap, start: int)
    requires WellFormed(s, r, m) && 0 <= start
    ensures Exact(m, start) <==> ExactAt(r.blocks, start)
    ensures LeavesZeros(m, start) <==> ZerosAt(r.blocks, start)
  {
    MapShape(s.img, r, m);
    if start > DIRECT + N {
      CeilIsFirstWhole(start - DIRECT - N);
    }
    if start > DIRECT + N + N * N {
      CeilIsFirstWhole(start - DIRECT - N - N * N);
    }
    hide Word, Aligned, Exclusive, Clean, Direct, Exact, ExactAt, LeavesZeros, ZerosAt, FirstWhole;
    assert |m.t0| == Beyond3(r.blocks) && |m.d0| == Portion(r.blocks - DIRECT - N, N * N);
    assert |m.d1| == Ceil(|m.d0|) && |m.t1| == Ceil(|m.t0|);
    SameNumbers(m, r.blocks, start);
  }

  /** Some disk holds a well-formed file of n blocks whose removal from `start` on is asked for and falls short. */
  ghost predicate SomeFallsShort(n: int, start: int) {
    exists s, r: Record, m: BlockMap ::
      && DiskState(s) && r.blocks == n && start <= n && Clean(s.img, r, m) && Prunable(s, r, m, start)
      && !Exact(m, start)
  }

  /**
   * Some disk holds a well-formed file of n blocks in which an exact removal from `start` on leaves stale
   * addresses.
   */
  ghost predicate SomeLeavesStale(n: int, start: int) {
    exists s, r: Record, m: BlockMap ::
      && DiskState(s) && r.blocks == n && start <= n && Clean(s.img, r, m) && Prunable(s, r, m, start)
      && Exact(m, start) && !LeavesZeros(m, start)
  }

  /** Every length and start that the numbers rule out is met by a real file, if the disk has room for it. */
  lemma FallsShort(n: int, start: int)
    requires 0 <= start <= n <= MAX_BLOCKS && Footprint(n) <= Capacity()
    ensures SomeFallsShort(n, start) <==> !ExactAt(n, start)
    ensures SomeLeavesStale(n, start) <==> ExactAt(n, start) && !ZerosAt(n, start)
  {
    hide WellFormed, Clean, Exact, ExactAt, LeavesZeros, ZerosAt, Prunable, Shaped, FileOf, FileStore, RecordOf,
         DiskState, Footprint, Capacity;
    AnyLength(n);
    var s, r, m := FileStore(n), RecordOf(FileOf(n, FIRST)), FileOf(n, FIRST);
    CleanIsPrunable(s, r, m, start);
    ByNumbers(s, r, m, start);
    CleanPart(s, r, m);
    forall s: Store, r: Record, m: BlockMap | r.blocks == n && Clean(s.img, r, m) && Prunable(s, r, m, start)
      ensures Exact(m, start) <==> ExactAt(n, start)
      ensures LeavesZeros(m, start) <==> ZerosAt(n, start)
    {
      WellFormedParts(s, r, m, start);
      ByNumbers(s, r, m, start);
    }
  }

  lemma CleanPart(s: Store, r: Record, m: BlockMap)
    requires WellFormed(s, r, m)
    ensures Clean(s.img, r, m)
  {
  }

  lemma WellFormedParts(s: Store, r: Record, m: BlockMap, start: int)
    requires Clean(s.img, r, m) && Prunable(s, r, m, start)
    ensures WellFormed(s, r, m)
  {
    hide Maps, Clean, Exclusive, Aligned;
  }

  /** Cutting a file at block 10 keeps its single block allocated. */
  lemma CutAtTenFallsShort(n: int)
    requires DIRECT < n <= MAX_BLOCKS && Footprint(n) <= Capacity()
    ensures SomeFallsShort(n, DIRECT)
  {
    FallsShort(n, DIRECT);
  }

  /**
   * Cutting a file that has up to N * N blocks in the triple region anywhere in the double region keeps the triple
   * tree.
   */
  lemma CutBelowSmallTripleFallsShort(n: int, start: int)
    requires DIRECT + N + N * N < n <= DIRECT + N + N * N + N * N && Footprint(n) <= Capacity()
    requires DIRECT + N <= start < DIRECT + N + N * N
    ensures SomeFallsShort(n, start)
  {
    FallsShort(n, start);
  }

  lemma InFirstSingle(n: int, i: int, j: int)
    requires 0 <= i < N && 0 < j < N
    ensures !ExactAt(n, DIRECT + N + N * N + i * (N * N) + j)
  {
    var y := i * (N * N) + j;
    assert y == (i * N) * N + j;
    assert y / N == i * N;
    assert !Aligned(y, Beyond3(n));
  }

  /**
   * Cutting a file inside the first single block of a double block of the triple region frees that double block,
   * though the single block is still needed. That holds at the very end of the file too.
   */
  lemma UnalignedTripleCutFallsShort(n: int, i: int, j: int)
    requires 0 <= i < N && 0 < j < N
    requires DIRECT + N + N * N + i * (N * N) + j <= n <= MAX_BLOCKS && Footprint(n) <= Capacity()
    ensures SomeFallsShort(n, DIRECT + N + N * N + i * (N * N) + j)
  {
    hide ExactAt, ZerosAt, SomeFallsShort, SomeLeavesStale, Footprint, Capacity;
    InFirstSingle(n, i, j);
    FallsShort(n, DIRECT + N + N * N + i * (N * N) + j);
  }

  /** Cutting a file of the double region more than a single block's worth before its end leaves stale addresses. */
  lemma DoubleCutLeavesStale(n: int, start: int)
    requires DIRECT + N < start && start + N <= n <= DIRECT + N + N * N && Footprint(n) <= Capacity()
    ensures SomeLeavesStale(n, start)
  {
    FallsShort(n, start);
    hide Aligned;
  }
}
