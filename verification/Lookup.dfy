/** Looking up logical blocks, with a one-entry cache (src/inode.cpp, get_datablock_from_inode). */
module Lookup {
  import opened Geometry
  import opened Words
  import opened LayerZero
  import opened DataBlocks
  import opened Inodes
  import opened BlockMaps
  import opened Wrappers

  /**
   * What makes the cached single block `prev` safe for looking up block k: it is empty, or unused because k
   * is not strictly inside a single block of the double or triple region, or it is that single block.
   */
  ghost predicate CacheOk(m: BlockMap, k: int, prev: int) {
    prev != 0 ==> CacheHit(m, k, prev)
  }

  ghost predicate CacheHit(m: BlockMap, k: int, prev: int) {
    if DIRECT + N <= k < DIRECT + N + N * N then
      var x := k - DIRECT - N;
      x % N != 0 ==> x / N < |m.d1| && prev == m.d1[x / N]
    else if k >= DIRECT + N + N * N then
      var x := k - DIRECT - N - N * N;
      x % N != 0 ==> x / N < |m.t1| && prev == m.t1[x / N]
    else true
  }

  /** Looking up a block of the file yields its address; the block just past a clean end yields none. */
  ghost predicate Found(img: Image, r: Record, m: BlockMap, k: int, address: int)
    requires 0 <= k
  {
    && (k < |m.Data()| ==> address == m.Data()[k])
    && (k == |m.Data()| ==> address <= 0)
  }

  /** What a lookup relies on: block k is inside the file, or just past it and the slots there are zero. */
  ghost predicate Searchable(img: Image, r: Record, m: BlockMap, k: int) {
    && Maps(img, r, m)
    && 0 <= k <= r.blocks
    && (k == r.blocks ==> Clean(img, r, m) && k < MAX_BLOCKS)
  }

  lemma TailAt(img: Image, parents: seq<int>, children: seq<int>, x: int)
    requires Tail(img, parents, children) && |children| <= x < |parents| * N
    ensures x / N < |parents| && InData(parents[x / N]) && Word(img[parents[x / N]], x % N) == 0
  {
    assert x / N * N + x % N == x;
  }

  lemma InDirect(img: Image, r: Record, m: BlockMap, k: int)
    requires Searchable(img, r, m, k) && k < DIRECT
    ensures |r.direct| == DIRECT && Found(img, r, m, k, r.direct[k])
  {
  }

  lemma InSingle(img: Image, r: Record, m: BlockMap, k: int)
    requires Searchable(img, r, m, k) && DIRECT <= k < DIRECT + N
    ensures if r.single == 0 then k == |m.Data()|
      else InData(r.single) && Found(img, r, m, k, Word(img[r.single], k - DIRECT))
  {
    hide Word;
    var x := k - DIRECT;
    if k < r.blocks {
      RegionOf(m, k);
      PackAt(img, m.s1, m.s0, x);
    } else if m.s1 != [] {
      TailAt(img, m.s1, m.s0, x);
    }
  }

  /** One step down an index level, to a block inside the file or to the slot just past its last one. */
  ghost predicate Step(img: Image, parents: seq<int>, children: seq<int>, x: int)
    requires 0 <= x
  {
    && x / N < |parents| && InData(parents[x / N])
    && Word(img[parents[x / N]], x % N) == if x < |children| then children[x] else 0
  }

  lemma StepAt(img: Image, parents: seq<int>, children: seq<int>, x: int)
    requires Pack(img, parents, children) && 0 <= x <= |children|
    requires x == |children| ==> x < |parents| * N && Tail(img, parents, children)
    ensures Step(img, parents, children, x)
  {
    hide Word;
    if x < |children| {
      PackAt(img, parents, children, x);
    } else {
      TailAt(img, parents, children, x);
    }
  }

  lemma InDoubleBlocks(img: Image, r: Record, m: BlockMap, k: int)
    requires Searchable(img, r, m, k) && DIRECT + N <= k < DIRECT + N + N * N
    ensures var x := k - DIRECT - N;
      && (k < |m.Data()| ==> x < |m.d0| && m.Data()[k] == m.d0[x])
      && (k == |m.Data()| ==> x == |m.d0|)
      && (if x == |m.d0| && x % N == 0 then
            r.double == 0 || (InData(r.double) && Word(img[r.double], x / N) == 0)
          else InData(r.double) && m.d2 == [r.double] && Step(img, m.d2, m.d1, x / N) && Step(img, m.d1, m.d0, x))
  {
    hide Word, Step;
    var x := k - DIRECT - N;
    if k < r.blocks {
      RegionOf(m, k);
    }
    if x < |m.d0| || x % N != 0 {
      StepAt(img, m.d1, m.d0, x);
      StepAt(img, m.d2, m.d1, x / N);
    } else if m.d2 != [] {
      TailAt(img, m.d2, m.d1, x / N);
    }
  }

  lemma TripleReach(img: Image, r: Record, m: BlockMap, k: int)
    requires Searchable(img, r, m, k) && DIRECT + N + N * N <= k
    ensures var x := k - DIRECT - N - N * N;
      && x < N * N * N && x <= |m.t0|
      && (k < |m.Data()| ==> x < |m.t0| && m.Data()[k] == m.t0[x])
      && (k == |m.Data()| ==> x == |m.t0|)
      && Pack(img, m.t1, m.t0) && Pack(img, m.t2, m.t1) && Pack(img, m.t3, m.t2)
      && (m.t3 != [] ==> m.t3 == [r.triple] && InData(r.triple))
      && (x == |m.t0| ==>
          && Tail(img, m.t1, m.t0) && Tail(img, m.t2, m.t1) && Tail(img, m.t3, m.t2)
          && (m.t3 == [] ==> r.triple == 0))
  {
    hide Word;
    MapShape(img, r, m);
    if k < r.blocks {
      RegionOf(m, k);
    }
  }

  lemma InTripleBlocks(img: Image, r: Record, m: BlockMap, k: int)
    requires Searchable(img, r, m, k) && DIRECT + N + N * N <= k
    ensures var x := k - DIRECT - N - N * N;
      && x < N * N * N
      && (k < |m.Data()| ==> x < |m.t0| && m.Data()[k] == m.t0[x])
      && (k == |m.Data()| ==> x == |m.t0|)
      && x / N / N == x / (N * N)
      && (if x == |m.t0| && x % (N * N) == 0 then
            r.triple == 0 || (InData(r.triple) && Word(img[r.triple], x / (N * N)) == 0)
          else
            && InData(r.triple) && m.t3 == [r.triple] && Step(img, m.t3, m.t2, x / N / N)
            && x / N / N < |m.t2|
            && if x == |m.t0| && x % N == 0 then InData(m.t2[x / N / N]) && Word(img[m.t2[x / N / N]], x / N % N) == 0
               else Step(img, m.t2, m.t1, x / N) && Step(img, m.t1, m.t0, x))
  {
    hide Word, Step, Searchable;
    TripleReach(img, r, m, k);
    var x := k - DIRECT - N - N * N;
    TripleSizes(x, (x + N - 1) / N, ((x + N - 1) / N + N - 1) / N);
    SquareMultiple(x);
    if x < |m.t0| || x % N != 0 {
      StepAt(img, m.t1, m.t0, x);
      StepAt(img, m.t2, m.t1, x / N);
      StepAt(img, m.t3, m.t2, x / N / N);
    } else if x % (N * N) != 0 {
      TailAt(img, m.t2, m.t1, x / N);
      StepAt(img, m.t3, m.t2, x / N / N);
    } else if m.t3 != [] {
      TailAt(img, m.t3, m.t2, x / N / N);
    }
  }

  method LookupDouble(disk: Disk, node: Inode, k: int, prev: int, ghost m: BlockMap)
    returns (address: int, prev': int)
    requires disk.Mirrored() && Searchable(disk.img, node.Rec(), m, k) && CacheOk(m, k, prev)
    requires DIRECT + N <= k < DIRECT + N + N * N
    ensures Found(disk.img, node.Rec(), m, k, address)
    ensures k < |m.Data()| ==> CacheOk(m, k + 1, prev')
  {
    hide Searchable, Word;
    InDoubleBlocks(disk.img, node.Rec(), m, k);
    prev' := prev;
    var x := k - DIRECT - N;
    if node.double == 0 {
      return -1, prev;
    }
    if x % N != 0 && prev != 0 {
      var single := ReadDataBlock(disk, prev);
      return Word(single.value, x % N), prev;
    }
    var double := ReadDataBlock(disk, node.double);
    var p := Word(double.value, x / N);
    if p <= 0 {
      return -1, prev;
    }
    prev' := p;
    var single := ReadDataBlock(disk, p);
    address := Word(single.value, x % N);
  }

  method LookupTriple(disk: Disk, node: Inode, k: int, prev: int, ghost m: BlockMap)
    returns (address: int, prev': int)
    requires disk.Mirrored() && Searchable(disk.img, node.Rec(), m, k) && CacheOk(m, k, prev)
    requires DIRECT + N + N * N <= k
    ensures Found(disk.img, node.Rec(), m, k, address)
    ensures k < |m.Data()| ==> CacheOk(m, k + 1, prev')
  {
    hide Searchable, Word;
    InTripleBlocks(disk.img, node.Rec(), m, k);
    prev' := prev;
    var x := k - DIRECT - N - N * N;
    if node.triple == 0 {
      return -1, prev;
    }
    if x % N != 0 && prev != 0 {
      var single := ReadDataBlock(disk, prev);
      return Word(single.value, x % N), prev;
    }
    var triple := ReadDataBlock(disk, node.triple);
    var q := Word(triple.value, x / (N * N));
    if q <= 0 {
      return -1, prev;
    }
    var double := ReadDataBlock(disk, q);
    var p := Word(double.value, x / N % N);
    if p <= 0 {
      return -1, prev;
    }
    prev' := p;
    var single := ReadDataBlock(disk, p);
    address := Word(single.value, x % N);
  }

  /** The address of logical block k, and a cache that is safe for looking up block k + 1. */
  method GetDatablockFromInode(disk: Disk, node: Inode, k: int, prev: int, ghost m: BlockMap)
    returns (address: int, prev': int)
    requires disk.Mirrored() && 0 <= k && CacheOk(m, k, prev)
    requires k <= node.blocks ==> Searchable(disk.img, node.Rec(), m, k)
    ensures k > node.blocks ==> address == -1
    ensures k <= node.blocks ==> Found(disk.img, node.Rec(), m, k, address)
    ensures k < node.blocks ==> CacheOk(m, k + 1, prev')
  {
    if k > node.blocks {
      return -1, prev;
    }
    if k < DIRECT {
      InDirect(disk.img, node.Rec(), m, k);
      return node.direct[k], prev;
    }
    if k < DIRECT + N {
      InSingle(disk.img, node.Rec(), m, k);
      if node.single == 0 {
        return -1, prev;
      }
      var single := ReadDataBlock(disk, node.single);
      return Word(single.value, k - DIRECT), prev;
    }
    if k < DIRECT + N + N * N {
      address, prev' := LookupDouble(disk, node, k, prev, m);
    } else {
      address, prev' := LookupTriple(disk, node, k, prev, m);
    }
  }

  /**
   * A scan as all callers make it, from any block with the cache empty: every address is the one that the uncached
   * walk of the index tree finds.
   */
  method Scan(disk: Disk, node: Inode, start: int, ghost m: BlockMap) returns (addresses: seq<int>)
    requires disk.Mirrored() && Maps(disk.img, node.Rec(), m) && 0 <= start <= node.blocks
    ensures |addresses| == node.blocks - start && node.blocks <= MAX_BLOCKS && |node.direct| == DIRECT
    ensures forall k :: start <= k < node.blocks ==> Address(disk.img, node.Rec(), k) == Some(addresses[k - start])
  {
    hide Single, Double, Triple, Found, Searchable, Address, CacheHit;
    addresses := [];
    var prev, k := 0, start;
    while k < node.blocks
      invariant start <= k <= node.blocks && CacheOk(m, k, prev) && |addresses| == k - start
      invariant k > start ==> k <= MAX_BLOCKS
      invariant forall j :: start <= j < k ==>
        j < MAX_BLOCKS && Address(disk.img, node.Rec(), j) == Some(addresses[j - start])
    {
      InFile(disk.img, node.Rec(), m, k);
      AddressIsData(disk.img, node.Rec(), m, k);
      var address, next := GetDatablockFromInode(disk, node, k, prev, m);
      FoundIsData(disk.img, node.Rec(), m, k, address);
      addresses := addresses + [address];
      prev, k := next, k + 1;
    }
    WithinLimits(disk.img, node.Rec(), m);
  }

  lemma InFile(img: Image, r: Record, m: BlockMap, k: int)
    requires Maps(img, r, m) && 0 <= k < r.blocks
    ensures Searchable(img, r, m, k) && k < |m.Data()|
  {
    hide Single, Double, Triple, Direct;
  }

  lemma FoundIsData(img: Image, r: Record, m: BlockMap, k: int, address: int)
    requires 0 <= k < |m.Data()| && Found(img, r, m, k, address)
    ensures address == m.Data()[k]
  {
  }

  lemma WithinLimits(img: Image, r: Record, m: BlockMap)
    requires Maps(img, r, m)
    ensures r.blocks <= MAX_BLOCKS && |r.direct| == DIRECT
  {
    hide Word;
    if r.blocks > 0 {
      AddressIsData(img, r, m, r.blocks - 1);
    }
  }
}
