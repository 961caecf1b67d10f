/** Range removal that starts in the double indirect region (src/inode.cpp:800-887). */
module RemoveDouble {
  import opened Geometry
  import opened Words
  import opened FreeList
  import opened LayerZero
  import opened DataBlocks
  import opened Inodes
  import opened BlockMaps
  import opened TreeWalk
  import opened Removal
  import opened RemoveEarly

  /** Where the removal stands on reaching single block i: everything before slot `Position` is done. */
  function Position(x: int, i: int): int {
    if i == x / N then x else i * N
  }

  /** The first single block that is not needed by the first x data blocks of the region. */
  function FirstWhole(x: int): int {
    if x % N == 0 then x / N else x / N + 1
  }

  function Upto(s: seq<int>, a: int, b: int): seq<int> {
    if 0 <= a <= b <= |s| then s[a..b] else []
  }

  /** The data and single blocks freed on reaching single block i. */
  ghost function DoneBlocks(data: seq<int>, singles: seq<int>, x: int, i: int): multiset<int> {
    multiset(Upto(data, x, Position(x, i))) + multiset(Upto(singles, FirstWhole(x), i))
  }

  /** The entries that single block i holds of the blocks to free. */
  function Share(data: seq<int>, x: int, i: int): seq<int> {
    Upto(data, Position(x, i), if (i + 1) * N < |data| then (i + 1) * N else |data|)
  }

  lemma Positions(x: int, i: int)
    requires 0 <= x && x / N <= i
    ensures x <= Position(x, i) < (i + 1) * N && i * N <= Position(x, i)
    ensures Position(x, i + 1) == (i + 1) * N
    ensures Position(x, i) == x || Position(x, i) == i * N
  {
  }

  lemma DataNext(data: seq<int>, x: int, i: int)
    requires 0 <= x <= |data| && x / N <= i && i * N <= |data|
    ensures multiset(Upto(data, x, Position(x, i))) + multiset(Share(data, x, i)) <= multiset(data)
    ensures (i + 1) * N <= |data| ==>
      multiset(Upto(data, x, Position(x, i + 1)))
        == multiset(Upto(data, x, Position(x, i))) + multiset(Share(data, x, i))
    ensures (i + 1) * N >= |data| ==>
      multiset(Rest(data, x)) == multiset(Upto(data, x, Position(x, i))) + multiset(Share(data, x, i))
  {
    hide Position;
    Positions(x, i);
    Slices(data, x, Position(x, i), if (i + 1) * N < |data| then (i + 1) * N else |data|);
  }

  lemma SinglesNext(singles: seq<int>, c: int, i: int)
    requires 0 <= c <= i + 1 && 0 <= i < |singles|
    ensures multiset(Upto(singles, c, i)) + multiset{singles[i]} <= multiset(singles)
    ensures multiset(Upto(singles, c, i + 1))
      == multiset(Upto(singles, c, i)) + (if i >= c then multiset{singles[i]} else multiset{})
    ensures i + 1 == |singles| ==> multiset(Rest(singles, c)) == multiset(Upto(singles, c, i + 1))
  {
    if i >= c {
      Slices(singles, c, i, i + 1);
      assert singles[i..i + 1] == [singles[i]];
    } else {
      Slices(singles, i, i + 1, i + 1);
      assert singles[i..i + 1] == [singles[i]];
    }
  }

  lemma FirstWholeIsNear(x: int, i: int)
    requires 0 <= x && x / N <= i
    ensures 0 <= FirstWhole(x) <= i + 1
  {
  }

  lemma DoneNext(data: seq<int>, singles: seq<int>, x: int, i: int)
    requires 0 <= x <= |data| && x / N <= i < |singles| && |data| <= |singles| * N < |data| + N
    ensures DoneBlocks(data, singles, x, i) + multiset(Share(data, x, i)) + multiset{singles[i]}
      <= multiset(data) + multiset(singles)
    ensures (i + 1) * N < |data| ==>
      DoneBlocks(data, singles, x, i + 1)
      == DoneBlocks(data, singles, x, i) + multiset(Share(data, x, i))
        + (if i >= FirstWhole(x) then multiset{singles[i]} else multiset{})
    ensures (i + 1) * N >= |data| ==>
      multiset(Rest(data, x)) + multiset(Rest(singles, FirstWhole(x)))
      == DoneBlocks(data, singles, x, i) + multiset(Share(data, x, i))
        + (if i >= FirstWhole(x) then multiset{singles[i]} else multiset{})
  {
    hide Share, Upto, Rest, Position, FirstWhole;
    FirstWholeIsNear(x, i);
    DataNext(data, x, i);
    SinglesNext(singles, FirstWhole(x), i);
  }

  lemma Slices(s: seq<int>, a: int, b: int, c: int)
    requires 0 <= a <= b <= c <= |s|
    ensures multiset(s[a..b]) + multiset(s[b..c]) == multiset(s[a..c]) <= multiset(s)
    ensures c == |s| ==> s[a..c] == Rest(s, a)
  {
    assert s[a..c] == s[a..b] + s[b..c];
    assert s == s[..a] + s[a..c] + s[c..];
  }

  // ----- the loop over the single blocks -----

  ghost function TotalBlocks(data: seq<int>, singles: seq<int>, x: int): multiset<int> {
    multiset(Rest(data, x)) + multiset(Rest(singles, FirstWhole(x)))
  }

  /** A single block that is only partly emptied has been rewritten; `base` is the old store with that one change. */
  ghost predicate Based(s: Store, data: seq<int>, singles: seq<int>, x: int, i: int, base: Store) {
    if x % N == 0 || i <= x / N then base == s
    else
      && 0 <= x / N < |singles| && InData(singles[x / N])
      && base == s.(img := s.img[singles[x / N] := base.img[singles[x / N]]])
      && ZeroedEntries(s.img[singles[x / N]], base.img[singles[x / N]], x % N,
                       if (x / N + 1) * N < |data| then N else |data| - x / N * N)
  }

  /** How far the loop is: single blocks before i are done with. */
  ghost predicate Progress(s: Store, data: seq<int>, singles: seq<int>, x: int, i: int, base: Store, now: Store) {
    && Based(s, data, singles, x, i, base)
    && (i == x / N ==> now == s)
    && Freed(base, After(data, singles, x, i), now)
  }

  /** The singles and the data below them are packed, and all different and live. */
  ghost predicate Region(s: Store, data: seq<int>, singles: seq<int>, x: int) {
    && Pack(s.img, singles, data) && NoDuplicates(singles)
    && multiset(data) + multiset(singles) <= multiset(s.live)
    && 0 <= x <= |data|
  }

  lemma ShareWords(img: Image, data: seq<int>, singles: seq<int>, x: int, i: int)
    requires Pack(img, singles, data) && 0 <= x <= |data| && x / N <= i < |singles|
    ensures var from := if i == x / N then x % N else 0;
      && |Share(data, x, i)| == (if (i + 1) * N < |data| then N else |data| - i * N) - from
      && forall j :: from <= j < from + |Share(data, x, i)| ==>
           j < N && Word(img[singles[i]], j) == Share(data, x, i)[j - from]
  {
    hide Word;
    Positions(x, i);
    var from := if i == x / N then x % N else 0;
    forall j | from <= j < from + |Share(data, x, i)|
      ensures j < N && Word(img[singles[i]], j) == Share(data, x, i)[j - from]
    {
      assert Share(data, x, i)[j - from] == data[i * N + j];
    }
  }

  lemma Prepare(s: Store, data: seq<int>, singles: seq<int>, x: int, i: int, base: Store, now: Store)
    requires Region(s, data, singles, x) && Progress(s, data, singles, x, i, base, now)
    requires x / N <= i < |singles| && (i == x / N || i * N < |data|)
    ensures InData(singles[i]) && singles[i] in now.live
    ensures multiset(Share(data, x, i)) + multiset{singles[i]} <= multiset(now.live)
    ensures now.img[singles[i]] == s.img[singles[i]]
  {
    var p := singles[i];
    var done, more := DoneBlocks(data, singles, x, i), multiset(Share(data, x, i)) + multiset{p};
    DoneNext(data, singles, x, i);
    assert done + more <= multiset(s.live);
    hide DoneBlocks, Share, TotalBlocks;
    StillLive(base, done, now, more);
    assert p in more;
  }

  ghost function After(data: seq<int>, singles: seq<int>, x: int, i: int): multiset<int> {
    if i == x / N || i * N < |data| then DoneBlocks(data, singles, x, i) else TotalBlocks(data, singles, x)
  }

  lemma AfterNext(data: seq<int>, singles: seq<int>, x: int, i: int)
    requires 0 <= x <= |data| && x / N <= i < |singles| && |data| <= |singles| * N < |data| + N
    ensures After(data, singles, x, i + 1)
      == DoneBlocks(data, singles, x, i)
        + (multiset(Share(data, x, i)) + if i >= FirstWhole(x) then multiset{singles[i]} else multiset{})
  {
    DoneNext(data, singles, x, i);
    hide DoneBlocks, Share;
  }

  /** A whole single block more has been freed. */
  lemma AdvanceWhole(s: Store, data: seq<int>, singles: seq<int>, x: int, i: int, base: Store, now: Store, s2: Store)
    requires Region(s, data, singles, x) && Progress(s, data, singles, x, i, base, now)
    requires x / N <= i < |singles| && (i == x / N || i * N < |data|) && i >= FirstWhole(x)
    requires Freed(now, multiset(Share(data, x, i)) + multiset{singles[i]}, s2)
    ensures Progress(s, data, singles, x, i + 1, base, s2)
  {
    hide Word, ZeroedEntries, NoDuplicates, DoneBlocks, Share, Freed, TotalBlocks;
    AfterNext(data, singles, x, i);
    FreedMore(base, DoneBlocks(data, singles, x, i), now, multiset(Share(data, x, i)) + multiset{singles[i]}, s2);
  }

  /** The single block that the removal starts inside of has been partly emptied. */
  lemma AdvancePartial(s: Store, data: seq<int>, singles: seq<int>, x: int, i: int, s2: Store)
    requires Region(s, data, singles, x)
    requires 0 <= i == x / N < |singles| && i < FirstWhole(x) && InData(singles[i])
    requires Freed(With(s, singles[i], s2), multiset(Share(data, x, i)), s2)
    requires ZeroedEntries(s.img[singles[i]], s2.img[singles[i]], x % N, x % N + |Share(data, x, i)|)
    ensures Progress(s, data, singles, x, i + 1, With(s, singles[i], s2), s2)
  {
    ShareWords(s.img, data, singles, x, i);
    AfterNext(data, singles, x, i);
    assert DoneBlocks(data, singles, x, i) == multiset{};
    hide Word, NoDuplicates, DoneBlocks, Share, Freed, TotalBlocks;
  }

  lemma Advance(s: Store, data: seq<int>, singles: seq<int>, x: int, i: int, base: Store, now: Store, s2: Store)
    returns (base': Store)
    requires Region(s, data, singles, x) && Progress(s, data, singles, x, i, base, now)
    requires 0 <= x && x / N <= i < |singles| && (i == x / N || i * N < |data|) && InData(singles[i])
    requires Emptied(now, singles[i], if i == x / N then x % N else 0, Share(data, x, i), i >= FirstWhole(x), s2)
    ensures Progress(s, data, singles, x, i + 1, base', s2)
  {
    hide Freed, ZeroedEntries, Share, Region;
    if i >= FirstWhole(x) {
      base' := base;
      AdvanceWhole(s, data, singles, x, i, base, now, s2);
    } else {
      base' := With(s, singles[i], s2);
      AdvancePartial(s, data, singles, x, i, s2);
    }
  }

  /** The loop over the double block; `beyond` counts the blocks of the file past the double region. */
  method EmptyDouble(disk: Disk, doubleBlock: Block, x: int, ending0: int,
                     ghost s: Store, ghost data: seq<int>, ghost singles: seq<int>, ghost beyond: int)
    returns (ok: bool, ending: int, ghost base: Store)
    requires disk.Valid() && disk.Now() == s && Region(s, data, singles, x) && |singles| <= N
    requires forall i :: 0 <= i < |singles| ==> Word(doubleBlock, i) == singles[i]
    requires x / N < N && (x / N < |singles| || Word(doubleBlock, x / N) == 0)
    requires 0 <= beyond && (beyond > 0 ==> |data| == N * N)
    requires ending0 == |data| + beyond - x / N * N
    modifies disk, disk.mem
    ensures disk.Valid()
    ensures ok <==> x / N < |singles|
    ensures !ok ==> disk.Now() == s
    ensures ok ==> Based(s, data, singles, x, |singles|, base)
    ensures ok ==> Freed(base, TotalBlocks(data, singles, x), disk.Now())
    ensures ok ==> if beyond == 0 then ending <= N else ending == beyond
  {
    hide Freed, disk.Valid, Word, NoDuplicates, Share, DoneBlocks, Emptied;
    Begin(s, data, singles, x);
    var start := x / N;
    var inner := x % N;
    ending := ending0;
    base := s;
    var i := start;
    while i < N
      invariant start <= i <= N
      invariant ending == |data| + beyond - i * N
      invariant i == start || i * N < |data| || (i == N && beyond > 0)
      invariant disk.Valid() && Progress(s, data, singles, x, i, base, disk.Now())
    {
      var from := if i == start then inner else 0;
      var p := Word(doubleBlock, i);
      if p <= 0 {
        return false, ending, base;
      }
      ghost var s1 := disk.Now();
      Prepare(s, data, singles, x, i, base, s1);
      ShareWords(s.img, data, singles, x, i);
      var j := EmptySingle(disk, p, from, ending, !(i == start && inner > 0), Share(data, x, i));
      base := Advance(s, data, singles, x, i, base, s1, disk.Now());
      i := i + 1;
      if j == ending {
        break;
      }
      ending := ending - N;
    }
    ok := true;
  }

  lemma Begin(s: Store, data: seq<int>, singles: seq<int>, x: int)
    requires Region(s, data, singles, x)
    ensures Progress(s, data, singles, x, x / N, s, s)
  {
    assert DoneBlocks(data, singles, x, x / N) == multiset{};
  }

  // ----- the whole removal -----

  /** The triple tree, when the removal leaves it behind: a tree of at most N * N data blocks. */
  ghost function LostTriple(m: BlockMap): multiset<int> {
    if m.t0 != [] && |m.t0| <= N * N then TripleBlocks(m) else multiset{}
  }

  /** What a removal from here relies on: the map, and zeros past the end if it has to look there. */
  ghost predicate Removable(s: Store, r: Record, m: BlockMap, start: int) {
    && Maps(s.img, r, m) && Exclusive(s.live, m)
    && 0 <= start <= r.blocks
    && (Clean(s.img, r, m) || (start < r.blocks && m.t0 == []))
  }

  lemma DoubleShape(s: Store, r: Record, m: BlockMap, start: int)
    requires Removable(s, r, m, start) && DIRECT + N <= start < DIRECT + N + N * N
    ensures var x := start - DIRECT - N;
      && r.blocks - DIRECT - N == |m.d0| + |m.t0| && x <= |m.d0| && (|m.t0| > 0 ==> |m.d0| == N * N)
      && (x / N < |m.d1| <==> start < r.blocks || x % N != 0)
      && |m.d1| <= N
      && Region(s, m.d0, m.d1, x)
  {
    Layers(s.live, m);
    assert multiset(m.d0) + multiset(m.d1) <= Owned(m);
  }

  lemma RootEntries(img: Image, root: int, children: seq<int>)
    requires InData(root) && Pack(img, [root], children)
    ensures forall i :: 0 <= i < |children| ==> Word(img[root], i) == children[i]
  {
    forall i | 0 <= i < |children|
      ensures Word(img[root], i) == children[i]
    {
      assert Word(img[[root][0]], i) == children[0 * N + i];
    }
  }

  lemma DoubleBlock(s: Store, r: Record, m: BlockMap, start: int)
    requires Removable(s, r, m, start) && DIRECT + N <= start < DIRECT + N + N * N
    ensures var y := (start - DIRECT - N) / N;
      && (y < |m.d1| ==> m.d2 == [r.double])
      && (m.d2 == [] ==> y >= |m.d1|)
      && (m.d2 != [] ==>
          && m.d2 == [r.double] && InData(r.double) && r.double in s.live
          && (forall i :: 0 <= i < |m.d1| ==> Word(s.img[r.double], i) == m.d1[i])
          && (y >= |m.d1| ==> Word(s.img[r.double], y) == 0))
      && (m.d2 == [] ==> r.double == 0)
  {
    hide Word, Owned, Exclusive;
    if m.d2 != [] {
      assert m.d2 == [r.double];
      OwnedIsLive(s.live, m, r.double);
      RootEntries(s.img, r.double, m.d1);
      hide Pack;
      var y := (start - DIRECT - N) / N;
      if y >= |m.d1| {
        assert Word(s.img[m.d2[0]], y) == 0;
      }
    }
  }

  lemma DoubleExcess(m: BlockMap, start: int)
    requires DIRECT + N <= start < DIRECT + N + N * N
    requires |m.direct| == DIRECT && |m.s0| == N && |m.s1| == 1 && |m.d2| <= 1
    ensures var x := start - DIRECT - N;
      && Ceil(x) == FirstWhole(x)
      && Excess(m, start) == TotalBlocks(m.d0, m.d1, x) + multiset(if x == 0 then m.d2 else []) + TripleBlocks(m)
      && Truncate(m, start) == EMPTY_MAP.(direct := m.direct, s0 := m.s0, s1 := m.s1,
            d0 := Cut(m.d0, x), d1 := Cut(m.d1, FirstWhole(x)), d2 := if x == 0 then [] else m.d2)
  {
    hide FirstWhole, Ceil, Cut, Rest;
    var x := start - DIRECT - N;
    CeilsInDouble(x);
    KeptWhole(m.direct, start);
    KeptWhole(m.s0, N + x);
    KeptWhole(m.s1, Ceil(N + x));
    GoneWhole(m.t0, x - N * N);
    GoneWhole(m.t1, 0);
    GoneWhole(m.t2, 0);
    GoneWhole(m.t3, 0);
    if x == 0 {
      GoneWhole(m.d2, 0);
    } else {
      KeptWhole(m.d2, 1);
    }
  }

  lemma CeilsInDouble(x: int)
    requires 0 <= x < N * N
    ensures Ceil(x) == FirstWhole(x) && Ceil(N + x) >= 1 && Ceil(x - N * N) == 0 && Ceil(0) == 0
    ensures Ceil(Ceil(x)) == if x == 0 then 0 else 1
  {
  }

  /** Cutting a packed layer off before child n, when the block that n falls inside keeps its first entries. */
  lemma PackCut(img: Image, img': Image, parents: seq<int>, children: seq<int>, n: int)
    requires Pack(img, parents, children) && 0 <= n <= |children|
    requires forall i, j :: 0 <= i < FirstWhole(n) && i < |parents| && 0 <= j < N && i * N + j < n ==>
      Word(img'[parents[i]], j) == Word(img[parents[i]], j)
    ensures FirstWhole(n) <= |parents|
    ensures Pack(img', Cut(parents, FirstWhole(n)), Cut(children, n))
  {
    hide Word;
    CutIs(parents, FirstWhole(n));
    CutIs(children, n);
    hide Cut;
  }

  lemma CutIs(s: seq<int>, n: int)
    ensures 0 <= n <= |s| ==> Cut(s, n) == s[..n]
  {
  }

  /** The singles and data of the double region after the loop: the first x data blocks, and zeros after them. */
  lemma LoopLeaves(s: Store, data: seq<int>, singles: seq<int>, x: int, base: Store)
    requires Region(s, data, singles, x) && Based(s, data, singles, x, |singles|, base) && x / N < |singles|
    ensures Pack(base.img, Cut(singles, FirstWhole(x)), Cut(data, x)) && AllInData(Cut(singles, FirstWhole(x)))
    ensures FirstWhole(x) <= |singles|
    ensures Tail(s.img, singles, data) ==> Tail(base.img, Cut(singles, FirstWhole(x)), Cut(data, x))
  {
    hide Word;
    PackCut(s.img, base.img, singles, data, x);
    CutIs(singles, FirstWhole(x));
    CutIs(data, x);
    hide Cut;
    var c := FirstWhole(x);
    if Tail(s.img, singles, data) {
      forall i, j | 0 <= i < c && 0 <= j < N && i * N + j >= x
        ensures Word(base.img[singles[..c][i]], j) == 0
      {
        assert i == x / N && x % N != 0 && x % N <= j;
        assert singles[..c][i] == singles[i];
        assert i * N + j >= |data| ==> Word(s.img[singles[i]], j) == 0;
      }
    }
  }

  /** The double block keeps its addresses; the ones past the cut are stale, and zero only if none was cut. */
  lemma DoubleLeaves(img: Image, double: int, singles: seq<int>, c: int)
    requires Pack(img, [double], singles) && 0 < c <= |singles| <= N
    ensures Pack(img, [double], Cut(singles, c))
    ensures Tail(img, [double], singles) ==> (Tail(img, [double], Cut(singles, c)) <==> c == |singles|)
  {
    hide Word;
    CutIs(singles, c);
    hide Cut;
    var top := [double];
    assert forall j :: 0 <= j < |singles| ==> Word(img[top[0]], j) == singles[0 * N + j];
    if c < |singles| {
      assert Word(img[top[0]], c) == singles[c] != 0;
      assert 0 * N + c >= |singles[..c]|;
    }
  }

  /** The blocks of the triple tree that this removal frees: all, or none at all. */
  ghost function FreedTriple(m: BlockMap): multiset<int> {
    if m.t0 != [] && |m.t0| > N * N then TripleBlocks(m) else multiset{}
  }

  ghost function FreedHere(m: BlockMap, x: int): multiset<int> {
    TotalBlocks(m.d0, m.d1, x) + multiset(if x == 0 then m.d2 else []) + FreedTriple(m)
  }

  lemma TripleSplit(m: BlockMap)
    requires m.t0 == [] ==> TripleBlocks(m) == multiset{}
    ensures FreedTriple(m) + LostTriple(m) == TripleBlocks(m)
    ensures LostTriple(m) == multiset{} <==> m.t0 == [] || |m.t0| > N * N
  {
    if m.t0 != [] {
      assert m.t0[0] in TripleBlocks(m);
    }
  }

  /** The blocks the inode keeps are still live and hold what `base` holds. */
  lemma KeptAfter(s: Store, m: BlockMap, k: int, f: multiset<int>, base: Store, s': Store)
    requires Exclusive(s.live, m) && base.live == s.live && Freed(base, f, s') && f <= Excess(m, k)
    ensures forall b :: Truncate(m, k).InIndex(b) || b in Truncate(m, k).Data() ==> b in s'.live
    ensures forall b :: InData(b) && Truncate(m, k).InIndex(b) ==> s'.img[b] == base.img[b]
  {
    hide Truncate, Excess, Owned, Freed;
    Split(m, k);
    var m' := Truncate(m, k);
    KeptFits(f, Excess(m, k), Owned(m'), Owned(m), multiset(base.live));
    StillLive(base, f, s', Owned(m'));
    forall b | m'.InIndex(b) || b in m'.Data()
      ensures b in s'.live
    {
      IndexIsOwned(m', b);
    }
    SameWhereLive(base, f, s');
  }

  lemma KeptFits(f: multiset<int>, excess: multiset<int>, kept: multiset<int>, all: multiset<int>, live: multiset<int>)
    requires f <= excess && all == kept + excess && all <= live
    ensures f + kept <= live
  {
  }

  lemma SameWhereLive(s: Store, f: multiset<int>, s': Store)
    requires Freed(s, f, s')
    ensures forall b :: 0 <= b < BLOCK_COUNT && b in s'.live ==> s'.img[b] == s.img[b]
  {
  }

  ghost predicate DoubleFields(r: Record, m: BlockMap, start: int, r': Record) {
    r' == r.(blocks := start,
             double := if start == DIRECT + N then 0 else r.double,
             triple := if m.t0 != [] && |m.t0| > N * N then 0 else r.triple)
  }

  lemma DoubleMapped(s: Store, r: Record, m: BlockMap, start: int, img': Image, r': Record)
    requires Removable(s, r, m, start) && DIRECT + N <= start < DIRECT + N + N * N
    requires DoubleFields(r, m, start, r')
    requires var x := start - DIRECT - N;
      && Pack(img', Cut(m.d1, FirstWhole(x)), Cut(m.d0, x))
      && (Tail(s.img, m.d1, m.d0) ==> Tail(img', Cut(m.d1, FirstWhole(x)), Cut(m.d0, x)))
      && (x > 0 ==> Pack(img', m.d2, Cut(m.d1, FirstWhole(x))))
      && (x > 0 && Tail(s.img, m.d2, m.d1) ==>
           (Tail(img', m.d2, Cut(m.d1, FirstWhole(x))) <==> FirstWhole(x) == |m.d1|))
    requires Same(s.img, img', m.s1)
    ensures var x := start - DIRECT - N;
      Maps(img', r', EMPTY_MAP.(direct := m.direct, s0 := m.s0, s1 := m.s1,
           d0 := Cut(m.d0, x), d1 := Cut(m.d1, FirstWhole(x)), d2 := if x == 0 then [] else m.d2))
  {
    hide Word, Exclusive, Tail, Clean;
    PackFrame(s.img, img', m.s1, m.s0);
    var x := start - DIRECT - N;
    CutIs(m.d0, x);
    CutIs(m.d1, FirstWhole(x));
    hide Cut;
  }

  lemma DoubleMaps(s: Store, r: Record, m: BlockMap, start: int, img': Image, r': Record)
    requires Removable(s, r, m, start) && DIRECT + N <= start < DIRECT + N + N * N
    requires DoubleFields(r, m, start, r')
    requires var x := start - DIRECT - N;
      && Pack(img', Cut(m.d1, FirstWhole(x)), Cut(m.d0, x))
      && (Tail(s.img, m.d1, m.d0) ==> Tail(img', Cut(m.d1, FirstWhole(x)), Cut(m.d0, x)))
      && (x > 0 ==> Pack(img', m.d2, Cut(m.d1, FirstWhole(x))))
      && (x > 0 && Tail(s.img, m.d2, m.d1) ==>
           (Tail(img', m.d2, Cut(m.d1, FirstWhole(x))) <==> FirstWhole(x) == |m.d1|))
    requires Same(s.img, img', m.s1)
    ensures var x := start - DIRECT - N;
      var m' := EMPTY_MAP.(direct := m.direct, s0 := m.s0, s1 := m.s1,
            d0 := Cut(m.d0, x), d1 := Cut(m.d1, FirstWhole(x)), d2 := if x == 0 then [] else m.d2);
      && Maps(img', r', m')
      && (Clean(s.img, r, m) ==>
          (Clean(img', r', m') <==> (m.t0 == [] || |m.t0| > N * N) && (x == 0 || FirstWhole(x) == |m.d1|)))
  {
    hide Word, Exclusive;
    PackFrame(s.img, img', m.s1, m.s0);
    DoubleMapped(s, r, m, start, img', r');
    var x := start - DIRECT - N;
    CutIs(m.d0, x);
    CutIs(m.d1, FirstWhole(x));
    hide Cut;
  }

  lemma ShapeOf(s: Store, r: Record, m: BlockMap, start: int)
    requires Removable(s, r, m, start) && DIRECT + N <= start < DIRECT + N + N * N
    ensures |m.direct| == DIRECT && |m.s0| == N && |m.s1| == 1 && |m.d2| <= 1 && AllInData(m.d2) && AllInData(m.d1)
    ensures m.t0 == [] ==> TripleBlocks(m) == multiset{}
    ensures Pack(s.img, m.d1, m.d0) && Pack(s.img, m.d2, m.d1)
    ensures start > DIRECT + N ==> m.d2 != []
    ensures m.d2 != [] ==> m.d2 == [r.double]
  {
    hide Word, Exclusive;
  }

  lemma HereAndLost(s: Store, r: Record, m: BlockMap, start: int)
    requires Removable(s, r, m, start) && DIRECT + N <= start < DIRECT + N + N * N
    ensures FreedHere(m, start - DIRECT - N) + LostTriple(m) == Excess(m, start)
  {
    ShapeOf(s, r, m, start);
    DoubleExcess(m, start);
    TripleSplit(m);
    hide TotalBlocks, TripleBlocks, Excess, Truncate, LostTriple, FreedTriple;
  }

  lemma BaseElsewhere(s: Store, data: seq<int>, singles: seq<int>, x: int, base: Store)
    requires Based(s, data, singles, x, |singles|, base)
    ensures base.live == s.live
    ensures forall b :: 0 <= b < BLOCK_COUNT && b !in Cut(singles, FirstWhole(x)) ==> base.img[b] == s.img[b]
  {
    hide ZeroedEntries;
    if x % N != 0 && 0 <= x / N < |singles| {
      CutIs(singles, FirstWhole(x));
      assert singles[..FirstWhole(x)][x / N] == singles[x / N];
    }
    hide Cut;
  }

  lemma CutIn(s: seq<int>, n: int, x: int)
    requires x in Cut(s, n)
    ensures x in s
  {
  }

  lemma DoubleIndex(s: Store, r: Record, m: BlockMap, start: int)
    requires Removable(s, r, m, start) && DIRECT + N <= start < DIRECT + N + N * N
    ensures forall b :: Truncate(m, start).InIndex(b) <==>
      b in m.s1 || b in Cut(m.d1, FirstWhole(start - DIRECT - N)) || (start > DIRECT + N && b in m.d2)
  {
    ShapeOf(s, r, m, start);
    DoubleExcess(m, start);
    hide Cut, Truncate, FirstWhole, Removable, Excess, TotalBlocks, TripleBlocks, Pack;
  }

  lemma ApartHere(live: set<int>, m: BlockMap, c: int)
    requires Exclusive(live, m)
    ensures forall b :: b in m.s1 || b in m.d2 ==> b !in Cut(m.d1, c)
  {
    IndexApart(live, m);
    forall b | (b in m.s1 || b in m.d2) && b in Cut(m.d1, c)
      ensures false
    {
      CutIn(m.d1, c, b);
    }
  }

  lemma DoubleSame(s: Store, r: Record, m: BlockMap, start: int, base: Store, s': Store)
    requires Removable(s, r, m, start) && DIRECT + N <= start < DIRECT + N + N * N
    requires Based(s, m.d0, m.d1, start - DIRECT - N, |m.d1|, base)
    requires Freed(base, FreedHere(m, start - DIRECT - N), s')
    ensures var x := start - DIRECT - N;
      && Same(s.img, s'.img, m.s1)
      && Same(base.img, s'.img, Cut(m.d1, FirstWhole(x)))
      && (x > 0 ==> Same(s.img, s'.img, m.d2))
  {
    hide Word, Excess, Truncate, TotalBlocks, TripleBlocks, Cut, FirstWhole, Freed, Based;
    var x := start - DIRECT - N;
    assert Exclusive(s.live, m);
    HereAndLost(s, r, m, start);
    BaseElsewhere(s, m.d0, m.d1, x, base);
    hide FreedHere, LostTriple, Removable;
    KeptAfter(s, m, start, FreedHere(m, x), base, s');
    DoubleIndex(s, r, m, start);
    ApartHere(s.live, m, FirstWhole(x));
    hide Exclusive;
  }

  lemma DoubleDone(s: Store, r: Record, m: BlockMap, start: int, base: Store, s': Store, r': Record)
    requires Removable(s, r, m, start) && DIRECT + N <= start < DIRECT + N + N * N
    requires (start - DIRECT - N) / N < |m.d1|
    requires Based(s, m.d0, m.d1, start - DIRECT - N, |m.d1|, base)
    requires Freed(base, FreedHere(m, start - DIRECT - N), s') && DoubleFields(r, m, start, r')
    ensures Removed(s, r, m, start, LostTriple(m), s', r')
    ensures Clean(s.img, r, m) ==>
      (Clean(s'.img, r', Truncate(m, start)) <==>
        (m.t0 == [] || |m.t0| > N * N) && (start == DIRECT + N || FirstWhole(start - DIRECT - N) == |m.d1|))
  {
    hide Word, Freed, FreedHere, Based, Excess, Truncate, TotalBlocks, TripleBlocks, Cut, FirstWhole, Removable, Pack,
         Tail, Clean, Maps, LostTriple, Same;
    var x := start - DIRECT - N;
    DoubleShape(s, r, m, start);
    ShapeOf(s, r, m, start);
    DoubleExcess(m, start);
    DoubleSame(s, r, m, start, base, s');
    DoublePacked(s, r, m, start, base, s');
    DoubleMaps(s, r, m, start, s'.img, r');
    DoubleFrame(s, r, m, start, base, s', r');
  }

  lemma DoubleUpper(s: Store, r: Record, m: BlockMap, start: int, base: Store, s': Store)
    requires Removable(s, r, m, start) && DIRECT + N <= start < DIRECT + N + N * N
    requires Based(s, m.d0, m.d1, start - DIRECT - N, |m.d1|, base)
    requires Freed(base, FreedHere(m, start - DIRECT - N), s')
    ensures UpperKept(s.img, s'.img, Truncate(m, start))
  {
    hide Word, Freed, FreedHere, Based, Excess, Truncate, TotalBlocks, TripleBlocks, Cut, FirstWhole, Removable;
    ShapeOf(s, r, m, start);
    DoubleExcess(m, start);
    DoubleSame(s, r, m, start, base, s');
  }

  lemma DoublePacked(s: Store, r: Record, m: BlockMap, start: int, base: Store, s': Store)
    requires Removable(s, r, m, start) && DIRECT + N <= start < DIRECT + N + N * N
    requires (start - DIRECT - N) / N < |m.d1|
    requires Based(s, m.d0, m.d1, start - DIRECT - N, |m.d1|, base)
    requires Same(base.img, s'.img, Cut(m.d1, FirstWhole(start - DIRECT - N)))
    requires start > DIRECT + N ==> Same(s.img, s'.img, m.d2)
    ensures var x := start - DIRECT - N;
      && Pack(s'.img, Cut(m.d1, FirstWhole(x)), Cut(m.d0, x))
      && (Tail(s.img, m.d1, m.d0) ==> Tail(s'.img, Cut(m.d1, FirstWhole(x)), Cut(m.d0, x)))
      && (x > 0 ==> Pack(s'.img, m.d2, Cut(m.d1, FirstWhole(x))))
      && (x > 0 && Tail(s.img, m.d2, m.d1) ==>
           (Tail(s'.img, m.d2, Cut(m.d1, FirstWhole(x))) <==> FirstWhole(x) == |m.d1|))
  {
    hide Word, Pack, Tail, Cut, Same, Region, Based, ZeroedEntries, Removable;
    var x := start - DIRECT - N;
    var c := FirstWhole(x);
    DoubleShape(s, r, m, start);
    ShapeOf(s, r, m, start);
    LoopLeaves(s, m.d0, m.d1, x, base);
    PackFrame(base.img, s'.img, Cut(m.d1, c), Cut(m.d0, x));
    if x > 0 {
      PackFrame(s.img, s'.img, m.d2, m.d1);
      DoubleLeaves(s'.img, r.double, m.d1, c);
    }
  }

  lemma DoubleFrame(s: Store, r: Record, m: BlockMap, start: int, base: Store, s': Store, r': Record)
    requires Removable(s, r, m, start) && DIRECT + N <= start < DIRECT + N + N * N
    requires Based(s, m.d0, m.d1, start - DIRECT - N, |m.d1|, base)
    requires Freed(base, FreedHere(m, start - DIRECT - N), s') && DoubleFields(r, m, start, r')
    ensures multiset(s'.live) + Excess(m, start) == multiset(s.live) + LostTriple(m)
    ensures forall b :: 0 <= b < BLOCK_COUNT && b in s'.live && !Truncate(m, start).InIndex(b) ==> s'.img[b] == s.img[b]
    ensures OnlyAddresses(r, r')
  {
    hide Word, Excess, Truncate, TotalBlocks, TripleBlocks, Cut, FirstWhole, Based;
    HereAndLost(s, r, m, start);
    BaseElsewhere(s, m.d0, m.d1, start - DIRECT - N, base);
    DoubleIndex(s, r, m, start);
    hide FreedHere, LostTriple, Removable;
  }

  /** The double tree's root and the triple tree are untouched by the loop. */
  lemma AfterLoop(s: Store, r: Record, m: BlockMap, start: int, base: Store)
    requires Removable(s, r, m, start) && DIRECT + N <= start < DIRECT + N + N * N
    requires (start - DIRECT - N) / N < |m.d1|
    requires Based(s, m.d0, m.d1, start - DIRECT - N, |m.d1|, base)
    ensures base.live == s.live && FreedHere(m, start - DIRECT - N) <= multiset(s.live)
    ensures m.t0 != [] ==> InData(r.triple) && multiset(Tree(base.img, r.triple, 3)) == TripleBlocks(m)
    ensures m.d2 == [r.double]
  {
    hide Word, Tree, Forest, Excess, Truncate, TotalBlocks, Cut, FirstWhole, Based, FreedHere;
    BaseElsewhere(s, m.d0, m.d1, start - DIRECT - N, base);
    HereAndLost(s, r, m, start);
    Split(m, start);
    DoubleShape(s, r, m, start);
    DoubleBlock(s, r, m, start);
    ShapeOf(s, r, m, start);
    FitsIn(FreedHere(m, start - DIRECT - N), LostTriple(m), Excess(m, start), Owned(Truncate(m, start)), Owned(m));
    if m.t0 != [] {
      WalkOfTriple(s.img, m, r.triple, 3);
      TripleElsewhere(s, r, m, start, base);
    }
  }

  lemma FitsIn(f: multiset<int>, lost: multiset<int>, excess: multiset<int>, kept: multiset<int>, all: multiset<int>)
    requires f + lost == excess && kept + excess == all
    ensures f <= all
  {
  }

  lemma TripleElsewhere(s: Store, r: Record, m: BlockMap, start: int, base: Store)
    requires Exclusive(s.live, m) && multiset(Tree(s.img, r.triple, 3)) == TripleBlocks(m)
    requires forall b :: 0 <= b < BLOCK_COUNT && b !in Cut(m.d1, FirstWhole(start - DIRECT - N)) ==>
      base.img[b] == s.img[b]
    ensures Tree(base.img, r.triple, 3) == Tree(s.img, r.triple, 3)
  {
    hide Tree, Forest, Cut, FirstWhole;
    var tree := Tree(s.img, r.triple, 3);
    forall b | b in tree && InData(b)
      ensures base.img[b] == s.img[b]
    {
      assert b in TripleBlocks(m);
      OnlyOne(s.live, m, b);
      if b in Cut(m.d1, FirstWhole(start - DIRECT - N)) {
        CutIn(m.d1, FirstWhole(start - DIRECT - N), b);
      }
    }
    TreeFrame(s.img, base.img, r.triple, 3);
  }

  /** After the loop: the double block if nothing is left in its region, and the triple tree if it is large. */
  method FreeAbove(disk: Disk, node: Inode, start: int, ending: int, ghost s: Store, ghost m: BlockMap,
                   ghost base: Store)
    returns (ok: bool)
    requires disk.Valid() && Removable(s, node.Rec(), m, start)
    requires DIRECT + N <= start < DIRECT + N + N * N && (start - DIRECT - N) / N < |m.d1|
    requires Based(s, m.d0, m.d1, start - DIRECT - N, |m.d1|, base)
    requires Freed(base, TotalBlocks(m.d0, m.d1, start - DIRECT - N), disk.Now())
    requires ending <= N * N <==> m.t0 == [] || |m.t0| <= N * N
    modifies disk, disk.mem, node
    ensures ok && disk.Valid()
    ensures Freed(base, FreedHere(m, start - DIRECT - N), disk.Now())
    ensures DoubleFields(old(node.Rec()), m, start, node.Rec())
  {
    hide disk.Valid, Word, Freed, Tree, Forest, Removable, TotalBlocks, FirstWhole, TripleBlocks, Based, FreedHere;
    ghost var x := start - DIRECT - N;
    ghost var r := node.Rec();
    AfterLoop(s, r, m, start, base);
    ghost var s1 := disk.Now();
    HereIs(m, x);
    if start == DIRECT + N {
      RootLive(m, x, base, s1, node.double);
      ok := FreeLive(disk, node.double);
      if !ok {
        return;
      }
      FreedMore(base, TotalBlocks(m.d0, m.d1, x), s1, multiset{node.double}, disk.Now());
      node.double := 0;
    }
    if ending <= N * N {
      node.blocks := start;
      return true;
    }
    ok := RemoveTree(disk, node.triple, 3, base, SoFar(m, x), TripleBlocks(m));
    if !ok {
      return;
    }
    node.triple := 0;
    node.blocks := start;
  }

  method RemoveFromDouble(disk: Disk, node: Inode, start: int, ghost m: BlockMap) returns (ok: bool)
    requires disk.Valid() && Removable(disk.Now(), node.Rec(), m, start)
    requires DIRECT + N <= start < DIRECT + N + N * N
    modifies disk, disk.mem, node
    ensures disk.Valid()
    ensures ok <==> start < old(node.blocks) || (start - DIRECT) % N != 0
    ensures !ok ==> disk.Now() == old(disk.Now()) && node.Rec() == old(node.Rec())
    ensures ok ==> Removed(old(disk.Now()), old(node.Rec()), m, start, LostTriple(m), disk.Now(), node.Rec())
    ensures ok ==> UpperKept(old(disk.img), disk.img, Truncate(m, start))
    ensures ok && old(Clean(disk.img, node.Rec(), m)) ==>
      (Clean(disk.img, node.Rec(), Truncate(m, start)) <==>
        (m.t0 == [] || |m.t0| > N * N) && (start == DIRECT + N || FirstWhole(start - DIRECT - N) == |m.d1|))
  {
    hide disk.Valid, Word, Freed, Truncate, Removed, Clean, Removable, Region, Based, TotalBlocks, FirstWhole,
         FreedHere, LostTriple, UpperKept;
    ghost var s, r := disk.Now(), node.Rec();
    DoubleShape(s, r, m, start);
    DoubleBlock(s, r, m, start);
    if node.double == 0 {
      return false;
    }
    var x := start - DIRECT - N;
    var block := ReadDataBlock(disk, node.double);
    var ending;
    ghost var base;
    ending := node.blocks - (N + DIRECT) - x / N * N;
    ok, ending, base := EmptyDouble(disk, block.value, x, ending, s, m.d0, m.d1, |m.t0|);
    if !ok {
      return;
    }
    ok := FreeAbove(disk, node, start, ending, s, m, base);
    DoubleDone(s, r, m, start, base, disk.Now(), node.Rec());
    DoubleUpper(s, r, m, start, base, disk.Now());
  }

  ghost function SoFar(m: BlockMap, x: int): multiset<int> {
    if x == 0 then TotalBlocks(m.d0, m.d1, x) + multiset(m.d2) else TotalBlocks(m.d0, m.d1, x)
  }

  lemma HereIs(m: BlockMap, x: int)
    ensures m.t0 != [] && |m.t0| > N * N ==> FreedHere(m, x) == SoFar(m, x) + TripleBlocks(m)
    ensures m.t0 == [] || |m.t0| <= N * N ==> FreedHere(m, x) == SoFar(m, x)
  {
    hide TotalBlocks, TripleBlocks;
    assert x != 0 ==> TotalBlocks(m.d0, m.d1, x) + multiset([]) == TotalBlocks(m.d0, m.d1, x);
  }

  lemma RootLive(m: BlockMap, x: int, base: Store, s1: Store, double: int)
    requires x == 0 && m.d2 == [double]
    requires FreedHere(m, x) <= multiset(base.live) && Freed(base, TotalBlocks(m.d0, m.d1, x), s1)
    ensures double in s1.live
    ensures multiset(m.d2) == multiset{double}
  {
    hide TotalBlocks, FreedTriple, Freed;
    assert multiset(m.d2) == multiset{double};
    assert TotalBlocks(m.d0, m.d1, x) + multiset{double} <= FreedHere(m, x);
    StillLive(base, TotalBlocks(m.d0, m.d1, x), s1, multiset{double});
  }
}
