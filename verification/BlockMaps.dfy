/** What an inode's addresses mean: the mapped data blocks and the index blocks that lead to them. */
module BlockMaps {
  import opened Geometry
  import opened Words
  import opened FreeList
  import opened Inodes
  import opened Wrappers

  /**
   * The blocks of one file, layer by layer. A digit 0 marks data, 1 to 3 the index blocks that many
   * levels above data, in the order of the data they lead to.
   */
  datatype BlockMap = BlockMap(
    direct: seq<int>,
    s0: seq<int>, s1: seq<int>,
    d0: seq<int>, d1: seq<int>, d2: seq<int>,
    t0: seq<int>, t1: seq<int>, t2: seq<int>, t3: seq<int>)
  {
    /** The mapped sequence: logical block k is Data()[k]. */
    function Data(): seq<int> {
      direct + s0 + d0 + t0
    }

    /** Whether b is one of the index blocks. */
    ghost predicate InIndex(b: int) {
      b in s1 || b in d1 || b in d2 || b in t1 || b in t2 || b in t3
    }

    function IndexCount(): nat {
      |s1| + |d1| + |d2| + |t1| + |t2| + |t3|
    }
  }

  const EMPTY_MAP: BlockMap := BlockMap([], [], [], [], [], [], [], [], [], [])

  const MAX_BLOCKS: int := DIRECT + N + N * N + N * N * N

  /** Every block a map uses, data and index, with multiplicity. */
  ghost function Owned(m: BlockMap): multiset<int> {
    multiset(m.direct) + multiset(m.s0) + multiset(m.s1)
    + multiset(m.d0) + multiset(m.d1) + multiset(m.d2)
    + multiset(m.t0) + multiset(m.t1) + multiset(m.t2) + multiset(m.t3)
  }

  ghost predicate AllInData(s: seq<int>) {
    forall i :: 0 <= i < |s| ==> InData(s[i])
  }

  /** The parents hold exactly the children, N to a block, in order. */
  ghost predicate Pack(img: Image, parents: seq<int>, children: seq<int>) {
    && AllInData(parents)
    && AllInData(children)
    && |children| <= |parents| * N < |children| + N
    && forall i, j :: 0 <= i < |parents| && 0 <= j < N && i * N + j < |children| ==>
        Word(img[parents[i]], j) == children[i * N + j]
  }

  /** The slots past the last child are zero. */
  ghost predicate Tail(img: Image, parents: seq<int>, children: seq<int>) {
    && AllInData(parents)
    && forall i, j :: 0 <= i < |parents| && 0 <= j < N && i * N + j >= |children| ==>
        Word(img[parents[i]], j) == 0
  }

  ghost predicate Root(pointer: int, top: seq<int>) {
    |top| <= 1 && (top != [] ==> pointer == top[0])
  }

  ghost predicate Single(img: Image, r: Record, m: BlockMap) {
    Root(r.single, m.s1) && Pack(img, m.s1, m.s0)
  }

  ghost predicate Double(img: Image, r: Record, m: BlockMap) {
    Root(r.double, m.d2) && Pack(img, m.d2, m.d1) && Pack(img, m.d1, m.d0)
  }

  ghost predicate Triple(img: Image, r: Record, m: BlockMap) {
    Root(r.triple, m.t3) && Pack(img, m.t3, m.t2) && Pack(img, m.t2, m.t1) && Pack(img, m.t1, m.t0)
  }

  ghost predicate Direct(r: Record, m: BlockMap) {
    && |r.direct| == DIRECT && |m.direct| <= DIRECT && AllInData(m.direct)
    && forall i :: 0 <= i < |m.direct| ==> r.direct[i] == m.direct[i]
  }

  /** A region is entered only when the ones before it are full. */
  ghost predicate Staircase(m: BlockMap) {
    && (m.s0 != [] ==> |m.direct| == DIRECT)
    && (m.d0 != [] ==> |m.s0| == N)
    && (m.t0 != [] ==> |m.d0| == N * N)
  }

  /** The inode's addresses lead to exactly the blocks of m. */
  ghost predicate Maps(img: Image, r: Record, m: BlockMap) {
    && r.blocks == |m.Data()|
    && Staircase(m)
    && Direct(r, m)
    && Single(img, r, m)
    && Double(img, r, m)
    && Triple(img, r, m)
  }

  /** Nothing but zeros past the end of the file: in the inode and in its index blocks. */
  ghost predicate Clean(img: Image, r: Record, m: BlockMap) {
    && (|r.direct| == DIRECT && forall i :: |m.direct| <= i < DIRECT ==> r.direct[i] == 0)
    && (m.s1 == [] ==> r.single == 0)
    && (m.d2 == [] ==> r.double == 0)
    && (m.t3 == [] ==> r.triple == 0)
    && Tail(img, m.s1, m.s0)
    && Tail(img, m.d1, m.d0) && Tail(img, m.d2, m.d1)
    && Tail(img, m.t1, m.t0) && Tail(img, m.t2, m.t1) && Tail(img, m.t3, m.t2)
  }

  /** The map's blocks are live and all different. */
  ghost predicate Exclusive(live: set<int>, m: BlockMap) {
    Owned(m) <= multiset(live)
  }

  /** Every live block but the index blocks of m still holds what it held. */
  ghost predicate Untouched(img: Image, img': Image, live: set<int>, m: BlockMap) {
    forall b :: 0 <= b < BLOCK_COUNT && b in live && !m.InIndex(b) ==> img'[b] == img[b]
  }

  /** Only the block count and the addresses of an inode may differ. */
  ghost predicate OnlyAddresses(r: Record, r': Record) {
    r' == r.(blocks := r'.blocks, direct := r'.direct, single := r'.single, double := r'.double, triple := r'.triple)
  }

  lemma IndexInData(img: Image, r: Record, m: BlockMap)
    requires Maps(img, r, m)
    ensures AllInData(m.s1) && AllInData(m.d1) && AllInData(m.d2)
    ensures AllInData(m.t1) && AllInData(m.t2) && AllInData(m.t3)
  {
  }

  /** No region holds more than its tree has room for. */
  lemma MapShape(img: Image, r: Record, m: BlockMap)
    requires Maps(img, r, m)
    ensures Staircase(m) && |m.direct| <= DIRECT && |m.s0| <= N && |m.d0| <= N * N && |m.Data()| == r.blocks
    ensures forall j :: 0 <= j < |m.Data()| ==> InData(m.Data()[j])
  {
    hide Word;
  }

  // ----- the tree lookup, for reference -----

  /** Logical block k by walking the index tree from the inode. */
  function Address(img: Image, r: Record, k: int): Option<int>
    requires 0 <= k < MAX_BLOCKS && |r.direct| == DIRECT
  {
    if k < DIRECT then Some(r.direct[k])
    else if k < DIRECT + N then Follow(img, r.single, k - DIRECT)
    else if k < DIRECT + N + N * N then InDouble(img, r.double, k - DIRECT - N)
    else InTriple(img, r.triple, k - DIRECT - N - N * N)
  }

  function InDouble(img: Image, root: int, x: int): Option<int>
    requires 0 <= x < N * N
  {
    var p :- Follow(img, root, x / N);
    Follow(img, p, x % N)
  }

  function InTriple(img: Image, root: int, x: int): Option<int>
    requires 0 <= x < N * N * N
  {
    var q :- Follow(img, root, x / (N * N));
    var p :- Follow(img, q, x / N % N);
    Follow(img, p, x % N)
  }

  function Follow(img: Image, b: int, j: int): Option<int>
    requires 0 <= j < N
  {
    if InData(b) then Some(Word(img[b], j)) else None
  }

  /** The packed layers say what the tree walk finds. */
  lemma AddressIsData(img: Image, r: Record, m: BlockMap, k: int)
    requires Maps(img, r, m) && 0 <= k < |m.Data()|
    ensures k < MAX_BLOCKS && Address(img, r, k) == Some(m.Data()[k])
  {
    RegionOf(m, k);
    if DIRECT <= k < DIRECT + N {
      PackAt(img, m.s1, m.s0, k - DIRECT);
    } else if DIRECT + N <= k < DIRECT + N + N * N {
      InDoubleIsData(img, r, m, k - DIRECT - N);
    } else if k >= DIRECT + N + N * N {
      InTripleIsData(img, r, m, k - DIRECT - N - N * N);
    }
  }

  lemma InDoubleIsData(img: Image, r: Record, m: BlockMap, x: int)
    requires Double(img, r, m) && 0 <= x < |m.d0|
    ensures x < N * N && InDouble(img, r.double, x) == Some(m.d0[x])
  {
    PackAt(img, m.d1, m.d0, x);
    PackAt(img, m.d2, m.d1, x / N);
  }

  lemma InTripleIsData(img: Image, r: Record, m: BlockMap, x: int)
    requires Triple(img, r, m) && 0 <= x < |m.t0|
    ensures x < N * N * N && InTriple(img, r.triple, x) == Some(m.t0[x])
  {
    PackAt(img, m.t1, m.t0, x);
    PackAt(img, m.t2, m.t1, x / N);
    PackAt(img, m.t3, m.t2, x / N / N);
    assert x / N / N == x / (N * N);
  }

  /** Which layer holds logical block k, and where. */
  lemma RegionOf(m: BlockMap, k: int)
    requires Staircase(m) && 0 <= k < |m.Data()|
    requires |m.direct| <= DIRECT && |m.s0| <= N && |m.d0| <= N * N
    ensures k < DIRECT ==> k < |m.direct| && m.Data()[k] == m.direct[k]
    ensures DIRECT <= k < DIRECT + N ==> k - DIRECT < |m.s0| && m.Data()[k] == m.s0[k - DIRECT]
    ensures DIRECT + N <= k < DIRECT + N + N * N ==>
      k - DIRECT - N < |m.d0| && m.Data()[k] == m.d0[k - DIRECT - N]
    ensures k >= DIRECT + N + N * N ==>
      k - DIRECT - N - N * N < |m.t0| && m.Data()[k] == m.t0[k - DIRECT - N - N * N]
  {
  }

  lemma PackAt(img: Image, parents: seq<int>, children: seq<int>, x: int)
    requires Pack(img, parents, children) && 0 <= x < |children|
    ensures x / N < |parents| && InData(parents[x / N]) && Word(img[parents[x / N]], x % N) == children[x]
  {
    assert x / N * N + x % N == x;
    assert Word(img[parents[x / N]], x % N) == children[x / N * N + x % N];
  }

  // ----- pushing one child -----

  ghost predicate Same(img: Image, img': Image, s: seq<int>) {
    forall x :: x in s && InData(x) ==> img'[x] == img[x]
  }

  lemma PackFrame(img: Image, img': Image, parents: seq<int>, children: seq<int>)
    requires AllInData(parents) && Same(img, img', parents)
    ensures Pack(img, parents, children) ==> Pack(img', parents, children)
    ensures Tail(img, parents, children) ==> Tail(img', parents, children)
  {
    assert forall i :: 0 <= i < |parents| ==> parents[i] in parents && img'[parents[i]] == img[parents[i]];
  }

  /** Storing c in the first slot past the children, in the last parent that has room. */
  lemma PackInto(img: Image, img': Image, parents: seq<int>, children: seq<int>, c: int)
    requires Pack(img, parents, children) && InData(c)
    requires NoDuplicates(parents)
    requires |children| < |parents| * N
    requires img'[parents[|parents| - 1]] == PutWord(img[parents[|parents| - 1]], |children| % N, c)
    requires Same(img, img', parents[..|parents| - 1])
    ensures Pack(img', parents, children + [c])
    ensures Tail(img, parents, children) ==> Tail(img', parents, children + [c])
  {
    var n := |parents| - 1;
    assert forall i :: 0 <= i < n ==> parents[..n][i] in parents[..n] && img'[parents[i]] == img[parents[i]];
    assert |children| % N == |children| - n * N;
    PutWordAll(img[parents[n]], |children| % N, c);
  }

  /** Storing c in slot 0 of a block that becomes the next parent. */
  lemma PackOnto(img: Image, img': Image, parents: seq<int>, children: seq<int>, p: int, c: int)
    requires Pack(img, parents, children) && InData(c) && InData(p)
    requires |children| == |parents| * N
    requires Word(img'[p], 0) == c
    requires Same(img, img', parents)
    ensures Pack(img', parents + [p], children + [c])
    ensures Tail(img, parents, children) && (forall j :: 1 <= j < N ==> Word(img'[p], j) == 0) ==>
      Tail(img', parents + [p], children + [c])
  {
    var ps := parents + [p];
    assert forall i :: 0 <= i < |parents| ==> parents[i] in parents && img'[parents[i]] == img[parents[i]];
    forall i, j | 0 <= i < |ps| && 0 <= j < N
      ensures i * N + j < |children + [c]| ==> Word(img'[ps[i]], j) == (children + [c])[i * N + j]
    {
      if i < |parents| {
        assert ps[i] == parents[i];
      }
    }
  }

  // ----- distinctness -----

  lemma OwnedIsLive(live: set<int>, m: BlockMap, x: int)
    requires Exclusive(live, m) && (m.InIndex(x) || x in m.Data())
    ensures x in live && x in Owned(m)
  {
    assert Owned(m)[x] <= multiset(live)[x];
  }

  lemma IndexIsOwned(m: BlockMap, b: int)
    requires m.InIndex(b) || b in m.Data()
    ensures b in Owned(m)
  {
  }

  lemma CountedTwice(s: seq<int>, i: nat, j: nat)
    requires i < j < |s| && s[i] == s[j]
    ensures multiset(s)[s[i]] >= 2
  {
    assert s == s[..j] + s[j..];
    assert s[..j][i] == s[i] && s[j..][0] == s[j];
    assert multiset(s) == multiset(s[..j]) + multiset(s[j..]);
  }

  lemma UniqueSeq(s: seq<int>)
    requires forall x :: multiset(s)[x] <= 1
    ensures NoDuplicates(s)
  {
    forall i, j | 0 <= i < j < |s| && s[i] == s[j]
      ensures false
    {
      CountedTwice(s, i, j);
    }
  }

  // ----- layers of a map are disjoint -----

  lemma Layers(live: set<int>, m: BlockMap)
    requires Exclusive(live, m)
    ensures NoDuplicates(m.s1) && NoDuplicates(m.d1) && NoDuplicates(m.d2)
    ensures NoDuplicates(m.t1) && NoDuplicates(m.t2) && NoDuplicates(m.t3)
  {
    forall x
      ensures multiset(m.s1)[x] <= 1 && multiset(m.d1)[x] <= 1 && multiset(m.d2)[x] <= 1
      ensures multiset(m.t1)[x] <= 1 && multiset(m.t2)[x] <= 1 && multiset(m.t3)[x] <= 1
    {
      OnlyOne(live, m, x);
    }
    UniqueSeq(m.s1);
    UniqueSeq(m.d1);
    UniqueSeq(m.d2);
    UniqueSeq(m.t1);
    UniqueSeq(m.t2);
    UniqueSeq(m.t3);
  }

  /** No block is in two index layers. */
  lemma IndexApart(live: set<int>, m: BlockMap)
    requires Exclusive(live, m)
    ensures forall x :: x in m.s1 ==>
      x in live && x !in m.d1 && x !in m.d2 && x !in m.t1 && x !in m.t2 && x !in m.t3
    ensures forall x :: x in m.d1 ==> x in live && x !in m.d2 && x !in m.t1 && x !in m.t2 && x !in m.t3
    ensures forall x :: x in m.d2 ==> x in live && x !in m.t1 && x !in m.t2 && x !in m.t3
    ensures forall x :: x in m.t1 ==> x in live && x !in m.t2 && x !in m.t3
    ensures forall x :: x in m.t2 ==> x in live && x !in m.t3
    ensures forall x :: x in m.t3 ==> x in live
  {
    forall x
      ensures x in m.s1 ==>
        x in live && x !in m.d1 && x !in m.d2 && x !in m.t1 && x !in m.t2 && x !in m.t3
      ensures x in m.d1 ==> x in live && x !in m.d2 && x !in m.t1 && x !in m.t2 && x !in m.t3
      ensures x in m.d2 ==> x in live && x !in m.t1 && x !in m.t2 && x !in m.t3
      ensures x in m.t1 ==> x in live && x !in m.t2 && x !in m.t3
      ensures x in m.t2 ==> x in live && x !in m.t3
      ensures x in m.t3 ==> x in live
    {
      OnlyOne(live, m, x);
      if m.InIndex(x) {
        OwnedIsLive(live, m, x);
      }
    }
  }

  lemma OnlyOne(live: set<int>, m: BlockMap, x: int)
    requires Exclusive(live, m)
    ensures
      multiset(m.direct)[x] + multiset(m.s0)[x] + multiset(m.s1)[x]
      + multiset(m.d0)[x] + multiset(m.d1)[x] + multiset(m.d2)[x]
      + multiset(m.t0)[x] + multiset(m.t1)[x] + multiset(m.t2)[x] + multiset(m.t3)[x] <= 1
  {
    assert Owned(m)[x] <= multiset(live)[x] <= 1;
  }

  // ----- mixed-radix arithmetic -----

  lemma TripleSizes(x: int, n1: int, n2: int)
    requires 0 <= x <= n1 * N < x + N && n1 <= n2 * N < n1 + N
    ensures x / N / N == x / (N * N)
    ensures n1 == if x % N == 0 then x / N else x / N + 1
    ensures n2 == if x % (N * N) == 0 then x / (N * N) else x / (N * N) + 1
  {
  }

  lemma SquareMultiple(x: int)
    requires 0 <= x
    ensures x % (N * N) == 0 ==> x % N == 0
  {
    var y := x / (N * N);
    if x % (N * N) == 0 {
      assert x == y * N * N;
    }
  }
}
