/** Range removal that starts in the triple indirect region (src/inode.cpp:889-997). */
module RemoveTriple {
  import opened Geometry
  import opened Words
  import opened FreeList
  import opened LayerZero
  import opened DataBlocks
  import opened Inodes
  import opened BlockMaps
  import opened TreeWalk
  import opened Removal
  import opened RemoveDouble

  // ----- what the loops free, single block by single block -----

  /** The entry of single block u at which the innermost loop starts: the offset of y wherever u sits like y's block. */
  function From(y: int, u: int): int {
    if u % N == y / N % N then y % N else 0
  }

  /** The data blocks that the innermost loop frees in single block u. */
  function EntriesIn(data: seq<int>, y: int, u: int): seq<int> {
    Upto(data, u * N + From(y, u), if (u + 1) * N < |data| then (u + 1) * N else |data|)
  }

  /** Everything freed among data and single blocks on reaching single block u. */
  ghost function FreedBefore(data: seq<int>, singles: seq<int>, y: int, u: int): multiset<int> {
    if u <= y / N || u > |singles| || y < 0 then multiset{}
    else FreedBefore(data, singles, y, u - 1) + FreedIn(data, singles, y, u - 1)
  }

  ghost function FreedIn(data: seq<int>, singles: seq<int>, y: int, u: int): multiset<int>
    requires 0 <= u < |singles|
  {
    multiset(EntriesIn(data, y, u)) + if From(y, u) == 0 then multiset{singles[u]} else multiset{}
  }

  /** The double blocks freed on reaching double block i: all from the first, or from the second on. */
  ghost function DoublesBefore(doubles: seq<int>, y: int, i: int): multiset<int> {
    multiset(Upto(doubles, FirstDouble(y), i))
  }

  function FirstDouble(y: int): int {
    if y / N % N == 0 then y / (N * N) else y / (N * N) + 1
  }

  /** The blocks of `freed` were given back, and nothing but blocks of `touched` was written. */
  ghost predicate FreedBut(s: Store, freed: multiset<int>, touched: seq<int>, s': Store) {
    && multiset(s'.live) + freed == multiset(s.live)
    && forall b :: 0 <= b < BLOCK_COUNT && b in s'.live && b !in touched ==> s'.img[b] == s.img[b]
  }

  lemma FreedButMore(s: Store, f: multiset<int>, touched: seq<int>, s1: Store, p: int, x: int, entries: seq<int>,
                     whole: bool, s2: Store)
    requires FreedBut(s, f, touched, s1) && Emptied(s1, p, x, entries, whole, s2)
    ensures FreedBut(s, f + (multiset(entries) + if whole then multiset{p} else multiset{}), touched + [p], s2)
    ensures forall b :: b in s2.live ==> b in s1.live
  {
    hide ZeroedEntries;
    var g := multiset(entries) + if whole then multiset{p} else multiset{};
    assert multiset(s2.live) + g == multiset(s1.live);
    forall b | b in s2.live
      ensures b in s1.live
    {
      assert multiset(s2.live)[b] + g[b] == multiset(s1.live)[b];
    }
  }

  lemma Suffix(s: seq<int>, a: int)
    ensures multiset(Upto(s, a, |s|)) <= multiset(s)
  {
    if 0 <= a <= |s| {
      assert s == s[..a] + s[a..];
      assert Upto(s, a, |s|) == s[a..];
    }
  }

  lemma Pieces(s: seq<int>, a: int, f: int, e: int, e': int)
    requires 0 <= a <= e <= |s| && a <= f && (e' == e || (e == |s| && e' >= e))
    ensures multiset(Upto(s, f, e)) + multiset(Upto(s, e', |s|)) <= multiset(Upto(s, a, |s|))
  {
    assert Upto(s, a, |s|) == s[a..];
    assert Upto(s, e', |s|) == s[e..];
    if f <= e {
      assert s[a..] == s[a..f] + s[f..e] + s[e..];
    } else {
      assert s[a..] == s[a..e] + s[e..];
    }
  }

  lemma DataMore(data: seq<int>, singles: seq<int>, y: int, u: int)
    requires 0 <= y && 0 <= u < |singles| && |data| <= |singles| * N < |data| + N
    ensures multiset(EntriesIn(data, y, u)) + multiset(Upto(data, (u + 1) * N, |data|))
      <= multiset(Upto(data, u * N, |data|))
  {
    hide From, Upto;
    FromRange(y, u);
    Pieces(data, u * N, u * N + From(y, u), if (u + 1) * N < |data| then (u + 1) * N else |data|, (u + 1) * N);
  }

  lemma SinglesMore(singles: seq<int>, u: int)
    requires 0 <= u < |singles|
    ensures multiset{singles[u]} + multiset(Upto(singles, u + 1, |singles|)) == multiset(Upto(singles, u, |singles|))
  {
    assert singles[u..] == [singles[u]] + singles[u + 1..];
    assert Upto(singles, u, |singles|) == singles[u..] && Upto(singles, u + 1, |singles|) == singles[u + 1..];
  }

  lemma OneMore(data: seq<int>, singles: seq<int>, y: int, u: int)
    requires 0 <= y && 0 <= u < |singles| && |data| <= |singles| * N < |data| + N
    ensures FreedIn(data, singles, y, u) + multiset(Upto(data, (u + 1) * N, |data|))
      + multiset(Upto(singles, u + 1, |singles|))
      <= multiset(Upto(data, u * N, |data|)) + multiset(Upto(singles, u, |singles|))
    ensures multiset(EntriesIn(data, y, u)) + multiset{singles[u]}
      <= multiset(Upto(data, u * N, |data|)) + multiset(Upto(singles, u, |singles|))
  {
    hide Upto, From, EntriesIn;
    DataMore(data, singles, y, u);
    SinglesMore(singles, u);
  }

  lemma FromRange(y: int, u: int)
    requires 0 <= y
    ensures 0 <= From(y, u) < N
  {
  }

  lemma AddLess(a: multiset<int>, f: multiset<int>, d: multiset<int>, g: multiset<int>, d0: multiset<int>,
                g0: multiset<int>, all: multiset<int>)
    requires a + d0 + g0 <= all && f + d + g <= d0 + g0
    ensures (a + f) + d + g <= all
  {
    forall x
      ensures ((a + f) + d + g)[x] <= all[x]
    {
      assert (a + d0 + g0)[x] <= all[x] && (f + d + g)[x] <= (d0 + g0)[x];
    }
  }

  /** What is freed before u leaves the rest of the region alone. */
  lemma {:induction false} FreedBeforeFits(data: seq<int>, singles: seq<int>, y: int, u: int)
    requires 0 <= y && y / N <= u <= |singles| && |data| <= |singles| * N < |data| + N
    ensures FreedBefore(data, singles, y, u) + multiset(Upto(data, u * N, |data|))
      + multiset(Upto(singles, u, |singles|))
      <= multiset(data) + multiset(singles)
    decreases u
  {
    hide FreedIn, Upto;
    if u > y / N {
      FreedBeforeFits(data, singles, y, u - 1);
      OneMore(data, singles, y, u - 1);
      AddLess(FreedBefore(data, singles, y, u - 1), FreedIn(data, singles, y, u - 1),
              multiset(Upto(data, u * N, |data|)), multiset(Upto(singles, u, |singles|)),
              multiset(Upto(data, (u - 1) * N, |data|)), multiset(Upto(singles, u - 1, |singles|)),
              multiset(data) + multiset(singles));
    } else {
      Suffix(data, u * N);
      Suffix(singles, u);
    }
  }

  // ----- the loops -----

  /** The last single block is gone into, and left with the end marker reached and not run past. */
  predicate Reaches(n0: int, n1: int, y: int) {
    y / N < n1 && n0 - (n1 - 1) * N >= From(y, n1 - 1)
  }

  /** The triple region: packed, its blocks live and all different. */
  ghost predicate Region3(s: Store, m: BlockMap, y: int) {
    && Pack(s.img, m.t1, m.t0) && Pack(s.img, m.t2, m.t1) && NoDuplicates(m.t1)
    && multiset(m.t0) + multiset(m.t1) + multiset(m.t2) <= multiset(s.live)
    && 0 <= y <= |m.t0|
  }

  /** The loops stand at single block u, with the double blocks before i done with. */
  ghost predicate Standing(s: Store, m: BlockMap, y: int, u: int, i: int, now: Store) {
    && FreedBut(s, FreedBefore(m.t0, m.t1, y, u) + DoublesBefore(m.t2, y, i), Upto(m.t1, y / N, u), now)
    && (u <= y / N ==> now == s)
    && PartsZeroed(s, m, y, u, now)
  }

  /** The single blocks that were gone into at an offset stay, and keep just the entries before it. */
  ghost predicate PartsZeroed(s: Store, m: BlockMap, y: int, u: int, now: Store) {
    forall k :: 0 <= y / N <= k < u && k < |m.t1| && From(y, k) != 0 && InData(m.t1[k]) ==>
      && m.t1[k] in now.live
      && ZeroedEntries(s.img[m.t1[k]], now.img[m.t1[k]], From(y, k), From(y, k) + |EntriesIn(m.t0, y, k)|)
  }

  lemma Ready3(s: Store, m: BlockMap, y: int, u: int, i: int, now: Store)
    requires Region3(s, m, y) && Standing(s, m, y, u, i, now) && y / N <= u < |m.t1|
    ensures InData(m.t1[u]) && m.t1[u] in now.live
    ensures multiset(EntriesIn(m.t0, y, u)) + multiset{m.t1[u]} <= multiset(now.live)
    ensures now.img[m.t1[u]] == s.img[m.t1[u]]
  {
    var p := m.t1[u];
    var more := multiset(EntriesIn(m.t0, y, u)) + multiset{p};
    Doubles(m.t2, y, i);
    FreedBeforeFits(m.t0, m.t1, y, u);
    OneMore(m.t0, m.t1, y, u);
    NotYet(m.t1, y / N, u);
    hide FreedBefore, DoublesBefore, FreedIn, EntriesIn, Pack, NoDuplicates, Upto, PartsZeroed, From;
    forall b
      ensures more[b] <= multiset(now.live)[b]
    {
      Ready3At(s, m, y, u, i, now, more, b);
    }
    assert p in more;
  }

  lemma Ready3At(s: Store, m: BlockMap, y: int, u: int, i: int, now: Store, more: multiset<int>, b: int)
    requires multiset(m.t0) + multiset(m.t1) + multiset(m.t2) <= multiset(s.live)
    requires multiset(now.live) + (FreedBefore(m.t0, m.t1, y, u) + DoublesBefore(m.t2, y, i)) == multiset(s.live)
    requires DoublesBefore(m.t2, y, i) <= multiset(m.t2)
    requires FreedBefore(m.t0, m.t1, y, u) + multiset(Upto(m.t0, u * N, |m.t0|)) + multiset(Upto(m.t1, u, |m.t1|))
      <= multiset(m.t0) + multiset(m.t1)
    requires more <= multiset(Upto(m.t0, u * N, |m.t0|)) + multiset(Upto(m.t1, u, |m.t1|))
    ensures more[b] <= multiset(now.live)[b]
  {
    hide FreedBefore, DoublesBefore, Upto;
    var d, g := multiset(Upto(m.t0, u * N, |m.t0|)), multiset(Upto(m.t1, u, |m.t1|));
    var f, h := FreedBefore(m.t0, m.t1, y, u), DoublesBefore(m.t2, y, i);
    assert (multiset(m.t0) + multiset(m.t1) + multiset(m.t2))[b] <= multiset(s.live)[b];
    assert multiset(now.live)[b] + f[b] + h[b] == multiset(s.live)[b];
    assert h[b] <= multiset(m.t2)[b];
    assert (f + d + g)[b] <= (multiset(m.t0) + multiset(m.t1))[b];
    assert more[b] <= (d + g)[b];
  }

  lemma Doubles(doubles: seq<int>, y: int, i: int)
    ensures DoublesBefore(doubles, y, i) <= multiset(doubles)
  {
    var c := FirstDouble(y);
    if 0 <= c <= i <= |doubles| {
      Slices(doubles, c, i, i);
    }
  }

  lemma NotYet(s: seq<int>, a: int, u: int)
    requires NoDuplicates(s) && 0 <= u < |s|
    ensures s[u] !in Upto(s, a, u)
  {
  }

  lemma EntryWords(img: Image, data: seq<int>, singles: seq<int>, y: int, u: int)
    requires Pack(img, singles, data) && 0 <= y && 0 <= u < |singles|
    ensures var from, ending := From(y, u), |data| - u * N;
      && 0 <= from < N && 0 < ending
      && |EntriesIn(data, y, u)| == (if ending <= from then 0 else if ending <= N then ending - from else N - from)
      && forall j :: from <= j < from + |EntriesIn(data, y, u)| ==>
           Word(img[singles[u]], j) == EntriesIn(data, y, u)[j - from]
  {
    hide Word;
    var from := From(y, u);
    forall j | from <= j < from + |EntriesIn(data, y, u)|
      ensures Word(img[singles[u]], j) == EntriesIn(data, y, u)[j - from]
    {
      assert EntriesIn(data, y, u)[j - from] == data[u * N + j];
    }
  }

  lemma PartStays(s: Store, m: BlockMap, y: int, u: int, i: int, now: Store, s2: Store, k: int)
    requires Region3(s, m, y) && Standing(s, m, y, u, i, now) && y / N <= k < u < |m.t1| && InData(m.t1[u])
    requires Emptied(now, m.t1[u], From(y, u), EntriesIn(m.t0, y, u), From(y, u) == 0, s2)
    ensures InData(m.t1[k]) && m.t1[k] in now.live ==> m.t1[k] in s2.live && s2.img[m.t1[k]] == now.img[m.t1[k]]
  {
    hide ZeroedEntries, FreedBefore, DoublesBefore, FreedBut, From, Pack, PartsZeroed;
    var p0, p := m.t1[k], m.t1[u];
    assert p0 != p;
    assert (multiset(m.t0) + multiset(m.t1) + multiset(m.t2))[p0] <= multiset(s.live)[p0] <= 1;
    assert multiset(m.t1)[p0] > 0;
    if p0 in EntriesIn(m.t0, y, u) {
      EntryInData(m.t0, y, u, p0);
      assert false;
    }
    hide EntriesIn, NoDuplicates;
    if p0 in now.live {
      var g := multiset(EntriesIn(m.t0, y, u)) + if From(y, u) == 0 then multiset{p} else multiset{};
      assert g[p0] == 0;
      assert multiset(s2.live)[p0] + g[p0] == multiset(now.live)[p0];
    }
  }

  lemma PartsStay(s: Store, m: BlockMap, y: int, u: int, i: int, now: Store, s2: Store)
    requires Region3(s, m, y) && Standing(s, m, y, u, i, now) && y / N <= u < |m.t1| && InData(m.t1[u])
    requires Emptied(now, m.t1[u], From(y, u), EntriesIn(m.t0, y, u), From(y, u) == 0, s2)
    ensures PartsZeroed(s, m, y, u + 1, s2)
  {
    Ready3(s, m, y, u, i, now);
    hide ZeroedEntries, FreedBefore, DoublesBefore, FreedBut, From, Pack, EntriesIn, Region3;
    forall k | 0 <= y / N <= k < u && k < |m.t1|
      ensures InData(m.t1[k]) && m.t1[k] in now.live ==> m.t1[k] in s2.live && s2.img[m.t1[k]] == now.img[m.t1[k]]
    {
      PartStays(s, m, y, u, i, now, s2, k);
    }
  }

  lemma EntryInData(data: seq<int>, y: int, u: int, b: int)
    requires b in EntriesIn(data, y, u)
    ensures b in data
  {
  }

  lemma UptoGrows(s: seq<int>, a: int, u: int)
    requires 0 <= a <= u < |s|
    ensures Upto(s, a, u) + [s[u]] == Upto(s, a, u + 1)
  {
  }

  lemma Regrouped(f: multiset<int>, h: multiset<int>, g: multiset<int>)
    ensures (f + h) + g == (f + g) + h
  {
  }

  lemma Next3(s: Store, m: BlockMap, y: int, u: int, i: int, now: Store, s2: Store)
    requires Region3(s, m, y) && Standing(s, m, y, u, i, now) && y / N <= u < |m.t1| && InData(m.t1[u])
    requires Emptied(now, m.t1[u], From(y, u), EntriesIn(m.t0, y, u), From(y, u) == 0, s2)
    ensures Standing(s, m, y, u + 1, i, s2)
  {
    hide ZeroedEntries, DoublesBefore, Pack, NoDuplicates, EntriesIn, Upto;
    var f, h, g := FreedBefore(m.t0, m.t1, y, u), DoublesBefore(m.t2, y, i), FreedIn(m.t0, m.t1, y, u);
    FreedButMore(s, f + h, Upto(m.t1, y / N, u), now, m.t1[u], From(y, u), EntriesIn(m.t0, y, u), From(y, u) == 0, s2);
    assert FreedBefore(m.t0, m.t1, y, u + 1) == f + g;
    Regrouped(f, h, g);
    UptoGrows(m.t1, y / N, u);
    PartsStay(s, m, y, u, i, now, s2);
  }

  lemma FromIs(y: int, u: int, i: int, j: int)
    requires 0 <= y && 0 <= j < N && u == i * N + j
    ensures From(y, u) == if j == y / N % N then y % N else 0
  {
  }

  /** The innermost loop, and what follows it for single block u: the end marker is met in the last one, or never. */
  method EmptyOneSingle(disk: Disk, p: int, from: int, ending: int,
                        ghost s: Store, ghost m: BlockMap, ghost y: int, ghost u: int, ghost i: int) returns (k: int)
    requires disk.Valid() && Region3(s, m, y) && y / N <= u < |m.t1| && p == m.t1[u]
    requires Standing(s, m, y, u, i, disk.Now()) && from == From(y, u) && ending == |m.t0| - u * N
    modifies disk, disk.mem
    ensures disk.Valid()
    ensures Standing(s, m, y, u + 1, i, disk.Now())
    ensures k == ending <==> u == |m.t1| - 1 && Reaches(|m.t0|, |m.t1|, y)
  {
    hide disk.Valid, Standing, Region3, Word, EntriesIn, Emptied, Pack, From;
    Blocks3(s, m, y);
    ghost var now := disk.Now();
    Ready3(s, m, y, u, i, now);
    EntryWords(s.img, m.t0, m.t1, y, u);
    k := EmptySingle(disk, p, from, ending, from == 0, EntriesIn(m.t0, y, u));
    Next3(s, m, y, u, i, now, disk.Now());
  }

  lemma NoneToEnter(n0: int, n1: int, y: int)
    ensures y / N >= n1 ==> !Reaches(n0, n1, y)
  {
  }

  /** The entries of a double block's buffer: its share of the single blocks, then, if the tree is clean, zeros. */
  ghost predicate DoubleEntries(block: Block, m: BlockMap, i: int, clean: bool) {
    forall j :: 0 <= j < N && 0 <= i * N + j ==>
      if i * N + j < |m.t1| then Word(block, j) == m.t1[i * N + j] else clean ==> Word(block, j) == 0
  }

  /** The loop over the entries of one double block. */
  method EmptyOneDouble(disk: Disk, block: Block, i: int, doubleIdx: int, y: int, ending0: int,
                        ghost s: Store, ghost m: BlockMap, ghost clean: bool)
    returns (ok: bool, reached: bool, ending: int, ghost u: int)
    requires disk.Valid() && Region3(s, m, y) && y / (N * N) <= i && doubleIdx == y / N % N
    requires var u0 := i * N + if i == y / (N * N) then doubleIdx else 0;
      && Standing(s, m, y, u0, i, disk.Now()) && y / N <= u0 <= |m.t1| && ending0 == |m.t0| - u0 * N
      && (u0 == |m.t1| ==> u0 == y / N)
    requires DoubleEntries(block, m, i, clean) && (clean || Reaches(|m.t0|, |m.t1|, y))
    modifies disk, disk.mem
    ensures disk.Valid()
    ensures y / N <= u <= |m.t1| && (ok ==> y / N < u) && Standing(s, m, y, u, i, disk.Now())
    ensures reached ==> ok && u == |m.t1| && Reaches(|m.t0|, |m.t1|, y) && i * N < u <= (i + 1) * N
    ensures !ok ==> u == |m.t1| && !Reaches(|m.t0|, |m.t1|, y) && i * N <= u < (i + 1) * N
    ensures ok && !reached ==> u == (i + 1) * N && ending == |m.t0| - u * N
    ensures u == |m.t1| && !reached ==> !Reaches(|m.t0|, |m.t1|, y)
  {
    hide disk.Valid, Standing, Region3, Word, Pack, From, Reaches;
    Blocks3(s, m, y);
    var inner := y % N;
    var j := if i == y / (N * N) then doubleIdx else 0;
    NoneToEnter(|m.t0|, |m.t1|, y);
    ending, reached := ending0, false;
    u := i * N + j;
    while j < N
      invariant 0 <= j <= N && u == i * N + j && y / N <= u <= |m.t1| && (y / N < u || j < N)
      invariant ending == |m.t0| - u * N
      invariant disk.Valid() && Standing(s, m, y, u, i, disk.Now())
      invariant u == |m.t1| ==> !Reaches(|m.t0|, |m.t1|, y)
    {
      var p := Word(block, j);
      assert u < |m.t1| ==> InData(m.t1[u]) && p == m.t1[u];
      if p <= 0 {
        return false, false, ending, u;
      }
      var from := if j == doubleIdx then inner else 0;
      FromIs(y, u, i, j);
      var k := EmptyOneSingle(disk, p, from, ending, s, m, y, u, i);
      u := u + 1;
      if k == ending {
        return true, true, ending, u;
      }
      ending := ending - N;
      j := j + 1;
    }
    ok := true;
  }

  lemma Blocks3(s: Store, m: BlockMap, y: int)
    requires Region3(s, m, y)
    ensures Pack(s.img, m.t1, m.t0) && AllInData(m.t1) && AllInData(m.t2) && 0 <= y <= |m.t0|
    ensures |m.t0| <= |m.t1| * N < |m.t0| + N && |m.t1| <= |m.t2| * N < |m.t1| + N
  {
  }

  /** Double block i is still in place, and holds what it held. */
  lemma ReadyDouble(s: Store, m: BlockMap, y: int, u: int, i: int, now: Store)
    requires Region3(s, m, y) && Standing(s, m, y, u, i, now) && y / N <= u <= |m.t1|
    requires 0 <= i < |m.t2| && y / (N * N) <= i && InData(m.t2[i])
    ensures m.t2[i] in now.live && now.img[m.t2[i]] == s.img[m.t2[i]]
    ensures forall k :: 0 <= k < |m.t1| ==> m.t1[k] != m.t2[i]
  {
    var q := m.t2[i];
    Blocks3(s, m, y);
    FreedBeforeFits(m.t0, m.t1, y, u);
    SinglesNext(m.t2, FirstDouble(y), i);
    hide FreedBefore, Pack, NoDuplicates, Upto, PartsZeroed;
    var f, h := FreedBefore(m.t0, m.t1, y, u), DoublesBefore(m.t2, y, i);
    assert (multiset(m.t0) + multiset(m.t1) + multiset(m.t2))[q] <= multiset(s.live)[q] <= 1;
    assert f[q] <= (multiset(m.t0) + multiset(m.t1))[q];
    assert (h + multiset{q})[q] <= multiset(m.t2)[q];
    assert multiset(now.live)[q] + f[q] + h[q] == multiset(s.live)[q];
    assert q !in m.t1;
    UptoIn(m.t1, y / N, u, q);
  }

  lemma UptoIn(s: seq<int>, a: int, b: int, x: int)
    ensures x in Upto(s, a, b) ==> x in s
  {
  }

  /** Double block i has been gone through and, unless it is still needed, freed. */
  lemma NextDouble(s: Store, m: BlockMap, y: int, u: int, i: int, now: Store, s2: Store)
    requires Region3(s, m, y) && Standing(s, m, y, u, i, now) && y / N < u <= |m.t1|
    requires 0 <= i < |m.t2| && y / (N * N) <= i && InData(m.t2[i])
    requires if i >= FirstDouble(y) then Freed(now, multiset{m.t2[i]}, s2) else s2 == now
    ensures Standing(s, m, y, u, i + 1, s2)
  {
    hide FreedBefore, Pack, NoDuplicates, Upto, ZeroedEntries, Region3, FirstDouble, EntriesIn, From;
    Blocks3(s, m, y);
    ReadyDouble(s, m, y, u, i, now);
    FirstDoubleAt(y, i);
    SinglesNext(m.t2, FirstDouble(y), i);
    var f, h := FreedBefore(m.t0, m.t1, y, u), DoublesBefore(m.t2, y, i);
    if i >= FirstDouble(y) {
      var q := m.t2[i];
      assert DoublesBefore(m.t2, y, i + 1) == h + multiset{q};
      assert f + (h + multiset{q}) == (f + h) + multiset{q};
      forall b
        ensures b in s2.live ==> b in now.live
        ensures b in now.live && b != q ==> b in s2.live
      {
        assert multiset(s2.live)[b] + multiset{q}[b] == multiset(now.live)[b];
      }
    }
  }

  lemma FirstDoubleAt(y: int, i: int)
    requires 0 <= i && y / (N * N) <= i && 0 <= y
    ensures 0 <= FirstDouble(y) <= i + 1
  {
  }

  /** The entries of the triple block's buffer: the double blocks, then, if the tree is clean, zeros. */
  ghost predicate TripleEntries(block: Block, m: BlockMap, clean: bool) {
    forall i :: 0 <= i < N ==> if i < |m.t2| then Word(block, i) == m.t2[i] else clean ==> Word(block, i) == 0
  }

  lemma DoubleEntriesOf(s: Store, m: BlockMap, y: int, i: int, clean: bool)
    requires Region3(s, m, y) && 0 <= i < |m.t2| && InData(m.t2[i]) && (clean ==> Tail(s.img, m.t2, m.t1))
    ensures DoubleEntries(s.img[m.t2[i]], m, i, clean)
  {
    hide Word, NoDuplicates;
  }

  /** Goes through double block i, and frees it if the whole of it was gone through. */
  method EmptyThenFreeDouble(disk: Disk, q: int, i: int, y: int, ending0: int, ghost s: Store, ghost m: BlockMap,
                             ghost clean: bool)
    returns (ok: bool, reached: bool, ending: int, ghost u: int)
    requires disk.Valid() && Region3(s, m, y) && y / (N * N) <= i < |m.t2| <= N && q == m.t2[i]
    requires var u0 := i * N + if i == y / (N * N) then y / N % N else 0;
      && Standing(s, m, y, u0, i, disk.Now()) && y / N <= u0 <= |m.t1| && ending0 == |m.t0| - u0 * N
      && (u0 == |m.t1| ==> u0 == y / N)
    requires (clean ==> Tail(s.img, m.t2, m.t1)) && (clean || Reaches(|m.t0|, |m.t1|, y))
    modifies disk, disk.mem
    ensures disk.Valid()
    ensures y / N <= u <= |m.t1| && (ok ==> y / N < u)
    ensures ok ==> Standing(s, m, y, u, i + 1, disk.Now())
    ensures !ok && |m.t1| == y / N ==> disk.Now() == s
    ensures reached ==> ok && u == |m.t1| && Reaches(|m.t0|, |m.t1|, y) && i * N < u <= (i + 1) * N
    ensures !ok ==>
      && !Reaches(|m.t0|, |m.t1|, y) && |m.t1| < N * N
      && Standing(s, m, y, |m.t1|, |m.t1| / N, disk.Now())
    ensures ok && !reached ==> u == (i + 1) * N && ending == |m.t0| - u * N
    ensures u == |m.t1| && !reached ==> !Reaches(|m.t0|, |m.t1|, y)
  {
    hide disk.Valid, Standing, Region3, Word, Pack, From, Reaches, Freed, DoubleEntries, Tail;
    Blocks3(s, m, y);
    var doubleIdx := y / N % N;
    ReadyDouble(s, m, y, i * N + if i == y / (N * N) then doubleIdx else 0, i, disk.Now());
    DoubleEntriesOf(s, m, y, i, clean);
    var block := ReadDataBlock(disk, q);
    ok, reached, ending, u := EmptyOneDouble(disk, block.value, i, doubleIdx, y, ending0, s, m, clean);
    if !ok {
      StillThere(s, m, y, u, i, disk.Now());
      StopsIn(|m.t1|, i);
      return;
    }
    ghost var now := disk.Now();
    ReadyDouble(s, m, y, u, i, now);
    var shouldFree := i != y / (N * N) || doubleIdx == 0;
    if shouldFree {
      var freed := FreeLive(disk, q);
      if !freed {
        ok := false;
        return;
      }
    }
    NextDouble(s, m, y, u, i, now, disk.Now());
  }

  lemma StopsIn(u: int, i: int)
    requires i * N <= u < (i + 1) * N && 0 <= i < N
    ensures u / N == i && u < N * N
  {
  }

  lemma StillThere(s: Store, m: BlockMap, y: int, u: int, i: int, now: Store)
    requires Standing(s, m, y, u, i, now)
    ensures u <= y / N ==> now == s
  {
  }

  /** The three nested loops. */
  method EmptyTriple(disk: Disk, block: Block, y: int, ending0: int, ghost s: Store, ghost m: BlockMap,
                     ghost clean: bool)
    returns (ok: bool)
    requires disk.Valid() && disk.Now() == s && Region3(s, m, y) && |m.t2| <= N && y < N * N * N
    requires ending0 == |m.t0| - y / N * N
    requires TripleEntries(block, m, clean) && (clean ==> Tail(s.img, m.t2, m.t1))
    requires (clean || Reaches(|m.t0|, |m.t1|, y))
    modifies disk, disk.mem
    ensures disk.Valid()
    ensures ok <==> Reaches(|m.t0|, |m.t1|, y) || |m.t1| == N * N
    ensures !ok ==> Standing(s, m, y, |m.t1|, |m.t1| / N, disk.Now())
    ensures ok ==> y / N < |m.t1|
    ensures !ok && |m.t1| == y / N ==> disk.Now() == s
    ensures ok ==> Standing(s, m, y, |m.t1|, |m.t2|, disk.Now())
  {
    hide disk.Valid, Standing, Region3, Word, Pack, From, Reaches, Tail;
    Blocks3(s, m, y);
    Begin3(s, m, y);
    NoneToEnter(|m.t0|, |m.t1|, y);
    var i := y / (N * N);
    var ending, reached := ending0, false;
    ghost var u := y / N;
    while i < N
      invariant y / (N * N) <= i <= N && u == (if i == y / (N * N) then y / N else i * N)
      invariant y / N <= u <= |m.t1| && ending == |m.t0| - u * N && (i == y / (N * N) || y / N < u)
      invariant disk.Valid() && Standing(s, m, y, u, i, disk.Now())
      invariant u == |m.t1| ==> !Reaches(|m.t0|, |m.t1|, y)
    {
      var q := Word(block, i);
      assert i < |m.t2| ==> InData(m.t2[i]) && q == m.t2[i];
      if q <= 0 {
        StillThere(s, m, y, u, i, disk.Now());
        StopsAfter(|m.t1|, |m.t2|, y, u, i);
        return false;
      }
      ok, reached, ending, u := EmptyThenFreeDouble(disk, q, i, y, ending, s, m, clean);
      if !ok {
        return;
      }
      i := i + 1;
      if reached {
        return true;
      }
    }
    ok := true;
  }

  /** The double block looked for is missing: every single block was gone through, and every double block freed. */
  lemma StopsAfter(n1: int, n2: int, y: int, u: int, i: int)
    requires n1 <= n2 * N && 0 <= y && n2 <= i < N && y / (N * N) <= i && y / N <= u <= n1
    requires u == if i == y / (N * N) then y / N else i * N
    ensures u == n1 && n1 / N == i && n1 < N * N
  {
    assert y / N == y / (N * N) * N + y / N % N;
  }

  lemma Begin3(s: Store, m: BlockMap, y: int)
    requires Region3(s, m, y)
    ensures Standing(s, m, y, y / N, y / (N * N), s) && y / N <= |m.t1|
    ensures y < |m.t0| || y % N != 0 ==> y / N < |m.t1|
    ensures y / N == y / (N * N) * N + y / N % N
  {
    TripleSizes(y, (y + N - 1) / N, ((y + N - 1) / N + N - 1) / N);
    assert DoublesBefore(m.t2, y, y / (N * N)) == multiset{};
  }

  // ----- which blocks the loops free, by position -----

  /** Data block x of the region is freed: it lies in or behind y's single block, not before the offset gone into. */
  predicate DataGone(y: int, x: int) {
    y / N <= x / N && (x / N % N == y / N % N ==> y % N <= x % N)
  }

  /** Single block u is freed: it is y's or lies behind it, and was not gone into at an offset. */
  predicate SingleGone(y: int, u: int) {
    y / N <= u && (u % N == y / N % N ==> y % N == 0)
  }

  /** Double block i is freed: it lies behind y's, or it is y's and was gone through from its first single block. */
  predicate DoubleGone(y: int, i: int) {
    y / (N * N) < i || (i == y / (N * N) && y / N % N == 0)
  }

  /**
   * What is still live of the blocks of a file after its removal from slot y of the triple region on, when the loops
   * got past `doubles` double blocks. Nothing else is freed than what the positions say.
   */
  ghost predicate LeftInTriple(live: set<int>, m: BlockMap, y: int, doubles: int, root: bool, live': set<int>) {
    && live' <= live
    && (forall x :: 0 <= x < |m.t0| ==> (m.t0[x] in live' <==> !DataGone(y, x)))
    && (forall u :: 0 <= u < |m.t1| ==> (m.t1[u] in live' <==> !SingleGone(y, u)))
    && (forall i :: 0 <= i < |m.t2| ==> (m.t2[i] in live' <==> !(DoubleGone(y, i) && i < doubles)))
    && (forall b :: b in live && b !in m.t0 && b !in m.t1 && b !in m.t2 ==> (b in live' <==> !(root && b in m.t3)))
  }

  lemma EntryAt(data: seq<int>, y: int, u: int, x: int)
    requires NoDuplicates(data) && 0 <= y && 0 <= u && 0 <= x < |data|
    ensures multiset(EntriesIn(data, y, u))[data[x]] == if x / N == u && From(y, u) <= x % N then 1 else 0
  {
    hide From;
    FromRange(y, u);
    var e, at := EntriesIn(data, y, u), u * N + From(y, u);
    assert forall k :: 0 <= k < |e| ==> e[k] == data[at + k];
    assert x == x / N * N + x % N;
    if x / N == u && From(y, u) <= x % N {
      assert e[x - at] == data[x];
    }
    OnceAt(e, data[x]);
  }

  lemma OnceAt(e: seq<int>, b: int)
    requires NoDuplicates(e)
    ensures multiset(e)[b] == if b in e then 1 else 0
    decreases |e|
  {
    if e != [] {
      var n := |e| - 1;
      OnceAt(e[..n], b);
      assert e == e[..n] + [e[n]];
    }
  }

  lemma {:induction false} DataFreed(data: seq<int>, singles: seq<int>, y: int, u: int, x: int)
    requires NoDuplicates(data) && 0 <= y && u <= |singles| && 0 <= x < |data| && data[x] !in singles
    ensures FreedBefore(data, singles, y, u)[data[x]]
      == if y / N <= x / N < u && From(y, x / N) <= x % N then 1 else 0
    decreases u
  {
    hide From, EntriesIn, NoDuplicates;
    if u > y / N {
      DataFreed(data, singles, y, u - 1, x);
      EntryAt(data, y, u - 1, x);
    }
  }

  lemma {:induction false} SingleFreed3(data: seq<int>, singles: seq<int>, y: int, u: int, k: int)
    requires NoDuplicates(singles) && 0 <= y && u <= |singles| && 0 <= k < |singles| && singles[k] !in data
    ensures FreedBefore(data, singles, y, u)[singles[k]] == if y / N <= k < u && From(y, k) == 0 then 1 else 0
    decreases u
  {
    hide FreedIn, From;
    if u > y / N {
      SingleFreed3(data, singles, y, u - 1, k);
      SingleStep(data, singles, y, u - 1, k);
    }
  }

  lemma SingleStep(data: seq<int>, singles: seq<int>, y: int, u: int, k: int)
    requires NoDuplicates(singles) && 0 <= u < |singles| && 0 <= k < |singles| && singles[k] !in data
    ensures FreedIn(data, singles, y, u)[singles[k]] == if k == u && From(y, u) == 0 then 1 else 0
  {
    hide From, EntriesIn;
    NoEntry(data, y, u, singles[k]);
  }

  lemma {:induction false} OtherFreed(data: seq<int>, singles: seq<int>, y: int, u: int, b: int)
    requires b !in data && b !in singles && u <= |singles|
    ensures FreedBefore(data, singles, y, u)[b] == 0
    decreases u
  {
    hide From, EntriesIn;
    if u > y / N && y >= 0 {
      OtherFreed(data, singles, y, u - 1, b);
      NoEntry(data, y, u - 1, b);
    }
  }

  lemma NoEntry(data: seq<int>, y: int, u: int, b: int)
    requires b !in data
    ensures multiset(EntriesIn(data, y, u))[b] == 0
  {
    hide From;
  }

  lemma DoubleFreed3(doubles: seq<int>, y: int, i: int, k: int)
    requires NoDuplicates(doubles) && 0 <= y && i <= |doubles| && 0 <= k < |doubles|
    ensures DoublesBefore(doubles, y, i)[doubles[k]] == if FirstDouble(y) <= k < i then 1 else 0
  {
    InSlice(doubles, FirstDouble(y), i, k);
  }

  lemma InSlice(s: seq<int>, a: int, b: int, k: int)
    requires NoDuplicates(s) && 0 <= a && b <= |s| && 0 <= k < |s|
    ensures multiset(Upto(s, a, b))[s[k]] == if a <= k < b then 1 else 0
  {
    var e := Upto(s, a, b);
    if a <= b {
      assert forall j :: 0 <= j < |e| ==> e[j] == s[a + j];
      if a <= k < b {
        assert e[k - a] == s[k];
      }
    }
    OnceAt(e, s[k]);
  }

  lemma GoneMeans(y: int)
    requires 0 <= y
    ensures forall x :: 0 <= x ==> (DataGone(y, x) <==> y / N <= x / N && From(y, x / N) <= x % N)
    ensures forall u :: 0 <= u ==> (SingleGone(y, u) <==> y / N <= u && From(y, u) == 0)
    ensures forall i :: DoubleGone(y, i) <==> FirstDouble(y) <= i
  {
  }

  // ----- when the loops free just what they should -----

  /**
   * The loops free just what they should exactly when slot y begins a single block, or it begins neither a single
   * nor a double block's share and the file ends before the same offset of the next double block.
   */
  predicate Aligned(y: int, n0: int) {
    y % N == 0 || (y / N % N != 0 && n0 <= ((y / (N * N) + 1) * N + y / N % N) * N)
  }

  ghost function FreedInTriple(m: BlockMap, y: int): multiset<int> {
    FreedBefore(m.t0, m.t1, y, |m.t1|) + DoublesBefore(m.t2, y, |m.t2|)
  }

  lemma FromWhenAligned(y: int, n0: int, n1: int, u: int)
    requires 0 <= y <= n0 <= n1 * N < n0 + N && Aligned(y, n0) && y / N <= u < n1
    ensures From(y, u) == if u == y / N then y % N else 0
  {
    var z := y / N;
    if u > z && y % N != 0 {
      assert y / (N * N) == z / N && z == z / N * N + z % N;
      assert u * N < n0 <= (z + N) * N;
      NotInPhase(z, u);
    }
  }

  lemma NotInPhase(z: int, u: int)
    requires 0 <= z < u < z + N
    ensures u % N != z % N
  {
    assert u == u / N * N + u % N && z == z / N * N + z % N;
  }

  lemma AlignedReaches(y: int, n0: int, n1: int)
    requires 0 <= y <= n0 <= n1 * N < n0 + N && Aligned(y, n0) && y / N < n1
    ensures Reaches(n0, n1, y)
  {
    FromWhenAligned(y, n0, n1, n1 - 1);
  }

  lemma {:induction false} FreedWhenAligned(data: seq<int>, singles: seq<int>, y: int, u: int)
    requires 0 <= y <= |data| <= |singles| * N < |data| + N && Aligned(y, |data|) && y / N < u <= |singles|
    ensures FreedBefore(data, singles, y, u)
      == multiset(Upto(data, y, if u * N < |data| then u * N else |data|)) + multiset(Upto(singles, FirstWhole(y), u))
    decreases u
  {
    hide Upto, Aligned, From, FirstWhole, EntriesIn;
    AlignedStep(data, singles, y, u - 1);
    if u - 1 > y / N {
      FreedWhenAligned(data, singles, y, u - 1);
    } else {
      assert FreedBefore(data, singles, y, u - 1) == multiset{};
    }
  }

  /** One single block: its entries extend the freed data, and it joins the freed single blocks when it is whole. */
  lemma AlignedStep(data: seq<int>, singles: seq<int>, y: int, u: int)
    requires 0 <= y <= |data| <= |singles| * N < |data| + N && Aligned(y, |data|) && y / N <= u < |singles|
    ensures multiset(Upto(data, y, if (u + 1) * N < |data| then (u + 1) * N else |data|))
      == (if u == y / N then multiset{} else multiset(Upto(data, y, if u * N < |data| then u * N else |data|)))
        + multiset(EntriesIn(data, y, u))
    ensures multiset(Upto(singles, FirstWhole(y), u + 1))
      == (if u == y / N then multiset{} else multiset(Upto(singles, FirstWhole(y), u)))
        + (if From(y, u) == 0 then multiset{singles[u]} else multiset{})
  {
    hide Aligned, From, Upto, FirstWhole, EntriesIn;
    FromWhenAligned(y, |data|, |singles|, u);
    AlignedData(data, |singles|, y, u);
    AlignedSingles(singles, y, u);
  }

  lemma AlignedData(data: seq<int>, n1: int, y: int, u: int)
    requires 0 <= y <= |data| <= n1 * N < |data| + N && y / N <= u < n1
    requires From(y, u) == if u == y / N then y % N else 0
    ensures multiset(Upto(data, y, if (u + 1) * N < |data| then (u + 1) * N else |data|))
      == (if u == y / N then multiset{} else multiset(Upto(data, y, if u * N < |data| then u * N else |data|)))
        + multiset(EntriesIn(data, y, u))
  {
    hide From;
    var end := if (u + 1) * N < |data| then (u + 1) * N else |data|;
    if u == y / N {
      assert u * N + y % N == y;
      assert EntriesIn(data, y, u) == Upto(data, y, end);
    } else {
      Slices(data, y, u * N, end);
    }
  }

  lemma AlignedSingles(singles: seq<int>, y: int, u: int)
    requires 0 <= y && y / N <= u < |singles|
    ensures multiset(Upto(singles, FirstWhole(y), u + 1))
      == (if u == y / N then multiset{} else multiset(Upto(singles, FirstWhole(y), u)))
        + (if (if u == y / N then y % N else 0) == 0 then multiset{singles[u]} else multiset{})
  {
    SinglesNext(singles, FirstWhole(y), u);
    if u == y / N {
      assert Upto(singles, FirstWhole(y), u) == [];
    }
  }

  lemma DoublesWhenAligned(y: int, n0: int)
    requires 0 <= y && Aligned(y, n0)
    ensures FirstDouble(y) == Ceil(Ceil(y))
  {
  }

  // ----- and when they do not -----

  lemma NotEntry(data: seq<int>, y: int, v: int, u: int)
    requires NoDuplicates(data) && From(y, v) > 0 && 0 <= v * N < |data| && 0 <= y && 0 <= u
    ensures data[v * N] !in EntriesIn(data, y, u)
  {
    hide From;
    FromRange(y, u);
    var e := EntriesIn(data, y, u);
    forall k | 0 <= k < |e|
      ensures e[k] != data[v * N]
    {
      var at := u * N + From(y, u) + k;
      assert e[k] == data[at];
      assert at == v * N ==> u == v;
    }
  }

  lemma DataApart(live: set<int>, m: BlockMap)
    requires Exclusive(live, m)
    ensures NoDuplicates(m.t0) && NoDuplicates(m.t2)
    ensures forall x :: x in m.t0 ==> x !in m.t1 && x !in m.t2 && x !in m.t3
  {
    forall x
      ensures multiset(m.t0)[x] <= 1 && multiset(m.t2)[x] <= 1
      ensures x in m.t0 ==> x !in m.t1 && x !in m.t2 && x !in m.t3
    {
      OnlyOne(live, m, x);
    }
    UniqueSeq(m.t0);
    UniqueSeq(m.t2);
  }

  /** Block data[v * N] is skipped when single block v sits, further on, at the offset where the removal started. */
  lemma {:induction false} Skipped(data: seq<int>, singles: seq<int>, y: int, v: int, u: int)
    requires NoDuplicates(data) && 0 <= y && u <= |singles|
    requires From(y, v) > 0 && 0 <= v * N < |data| && data[v * N] !in singles
    ensures data[v * N] !in FreedBefore(data, singles, y, u)
    decreases u
  {
    hide From, EntriesIn, NoDuplicates;
    if u > y / N {
      Skipped(data, singles, y, v, u - 1);
      NotEntry(data, y, v, u - 1);
      assert data[v * N] !in FreedIn(data, singles, y, u - 1);
    }
  }

  lemma TripleExcess(m: BlockMap, start: int)
    requires DIRECT + N + N * N <= start
    requires |m.direct| == DIRECT && |m.s0| == N && |m.s1| == 1 && |m.d0| == N * N && |m.d1| == N && |m.d2| == 1
    requires |m.t3| <= 1
    requires start - DIRECT - N - N * N < N * N * N
    ensures var y := start - DIRECT - N - N * N;
      var c := FirstWhole(y);
      && Excess(m, start) == multiset(Rest(m.t0, y)) + multiset(Rest(m.t1, c)) + multiset(Rest(m.t2, Ceil(c)))
        + multiset(if y == 0 then m.t3 else [])
      && Truncate(m, start)
           == m.(t0 := Cut(m.t0, y), t1 := Cut(m.t1, c), t2 := Cut(m.t2, Ceil(c)), t3 := if y == 0 then [] else m.t3)
  {
    hide FirstWhole, Ceil, Cut, Rest;
    var y := start - DIRECT - N - N * N;
    CeilsInTriple(y);
    KeptWhole(m.direct, start);
    KeptWhole(m.s0, start - DIRECT);
    KeptWhole(m.s1, Ceil(start - DIRECT));
    KeptWhole(m.d0, start - DIRECT - N);
    KeptWhole(m.d1, Ceil(start - DIRECT - N));
    KeptWhole(m.d2, Ceil(Ceil(start - DIRECT - N)));
    if y == 0 {
      GoneWhole(m.t3, 0);
    } else {
      KeptWhole(m.t3, 1);
    }
  }

  lemma CeilsInTriple(y: int)
    requires 0 <= y < N * N * N
    ensures Ceil(y) == FirstWhole(y)
    ensures Ceil(y + N * N) >= N && Ceil(Ceil(y + N * N)) >= 1 && Ceil(y + N * N + N) >= 1
    ensures Ceil(Ceil(Ceil(y))) == if y == 0 then 0 else 1
  {
  }

  // ----- what is left of the region -----

  /** The kept part of the triple region in the new image. */
  ghost predicate TripleLeft(img: Image, m: BlockMap, y: int) {
    var c := FirstWhole(y);
    && Pack(img, Cut(m.t1, c), Cut(m.t0, y))
    && Pack(img, Cut(m.t2, Ceil(c)), Cut(m.t1, c))
    && (y > 0 ==> Pack(img, m.t3, Cut(m.t2, Ceil(c))))
  }

  /** The index blocks kept hold what they held, the one the removal starts inside of up to its entry. */
  ghost predicate TripleHeld(s: Store, m: BlockMap, y: int, img: Image)
    requires AllInData(m.t1) && AllInData(m.t2) && AllInData(m.t3) && 0 <= y
  {
    var c := FirstWhole(y);
    && (forall i :: 0 <= i < y / N && i < |m.t1| ==> img[m.t1[i]] == s.img[m.t1[i]])
    && (y % N != 0 && y / N < |m.t1| ==>
          ZeroedEntries(s.img[m.t1[y / N]], img[m.t1[y / N]], y % N, y % N + |EntriesIn(m.t0, y, y / N)|))
    && (forall i :: 0 <= i < Ceil(c) && i < |m.t2| ==> img[m.t2[i]] == s.img[m.t2[i]])
    && (y > 0 ==> forall i :: 0 <= i < |m.t3| ==> img[m.t3[i]] == s.img[m.t3[i]])
  }

  lemma TripleLeaves(s: Store, m: BlockMap, y: int, img: Image)
    requires Pack(s.img, m.t1, m.t0) && Pack(s.img, m.t2, m.t1) && Pack(s.img, m.t3, m.t2) && |m.t3| == 1
    requires 0 <= y <= |m.t0| && TripleHeld(s, m, y, img)
    ensures TripleLeft(img, m, y)
  {
    hide Word, Cut, EntriesIn;
    var c := FirstWhole(y);
    PackCut(s.img, img, m.t1, m.t0, y);
    CeilIsFirstWhole(c);
    PackCut(s.img, img, m.t2, m.t1, c);
    if y > 0 {
      CeilIsFirstWhole(Ceil(c));
      PackCut(s.img, img, m.t3, m.t2, Ceil(c));
      CutIs(m.t3, 1);
      assert m.t3[..1] == m.t3;
    }
  }

  lemma CeilIsFirstWhole(n: int)
    requires 0 <= n
    ensures Ceil(n) == FirstWhole(n)
  {
  }

  lemma TripleTails(s: Store, m: BlockMap, y: int, img: Image)
    requires Pack(s.img, m.t1, m.t0) && Pack(s.img, m.t2, m.t1) && Pack(s.img, m.t3, m.t2) && |m.t3| == 1
    requires 0 < y <= |m.t0| && y / N < |m.t1| && TripleHeld(s, m, y, img) && |m.t2| <= N
    requires Tail(s.img, m.t1, m.t0) && Tail(s.img, m.t2, m.t1) && Tail(s.img, m.t3, m.t2)
    ensures var c := FirstWhole(y);
      c == |m.t1| <==>
        && Tail(img, Cut(m.t1, c), Cut(m.t0, y)) && Tail(img, Cut(m.t2, Ceil(c)), Cut(m.t1, c))
        && Tail(img, m.t3, Cut(m.t2, Ceil(c)))
  {
    var c := FirstWhole(y);
    TailOfSingles(s, m, y, img);
    if c == |m.t1| {
      assert Ceil(c) == |m.t2|;
      CutIs(m.t1, c);
      CutIs(m.t2, Ceil(c));
      assert Cut(m.t1, c) == m.t1 && Cut(m.t2, Ceil(c)) == m.t2;
      assert Same(s.img, img, m.t2) && Same(s.img, img, m.t3);
      PackFrame(s.img, img, m.t2, m.t1);
      PackFrame(s.img, img, m.t3, m.t2);
    } else {
      StaleSlot(s, m, y, img);
    }
  }

  lemma TailOfSingles(s: Store, m: BlockMap, y: int, img: Image)
    requires Pack(s.img, m.t1, m.t0) && AllInData(m.t2) && AllInData(m.t3)
    requires 0 <= y <= |m.t0| && y / N < |m.t1| && TripleHeld(s, m, y, img) && Tail(s.img, m.t1, m.t0)
    ensures Tail(img, Cut(m.t1, FirstWhole(y)), Cut(m.t0, y))
  {
    hide Word;
    var c := FirstWhole(y);
    CutIs(m.t1, c);
    CutIs(m.t0, y);
    EntryWords(s.img, m.t0, m.t1, y, y / N);
    hide Cut, EntriesIn;
    assert From(y, y / N) == y % N;
    forall i, j | 0 <= i < c && 0 <= j < N && i * N + j >= y
      ensures Word(img[m.t1[..c][i]], j) == 0
    {
      assert i == y / N && y % N != 0 && y % N <= j;
      assert m.t1[..c][i] == m.t1[i];
      assert i * N + j >= |m.t0| ==> Word(s.img[m.t1[i]], j) == 0;
    }
  }

  /** Some address of a freed index block is still written in an index block that is kept. */
  lemma StaleSlot(s: Store, m: BlockMap, y: int, img: Image)
    requires Pack(s.img, m.t2, m.t1) && Pack(s.img, m.t3, m.t2) && |m.t3| == 1 && AllInData(m.t1)
    requires 0 < y && TripleHeld(s, m, y, img) && |m.t2| <= N && FirstWhole(y) < |m.t1|
    ensures var c := FirstWhole(y);
      !(Tail(img, Cut(m.t2, Ceil(c)), Cut(m.t1, c)) && Tail(img, m.t3, Cut(m.t2, Ceil(c))))
  {
    hide Word, EntriesIn;
    var c := FirstWhole(y);
    var d := Ceil(c);
    CutIs(m.t1, c);
    CutIs(m.t2, d);
    hide Cut;
    if c < d * N {
      var i := c / N;
      assert i * N + c % N == c && m.t2[..d][i] == m.t2[i];
      assert Word(s.img[m.t2[i]], c % N) == m.t1[i * N + c % N] != 0;
      assert Word(img[m.t2[..d][i]], c % N) != 0;
    } else {
      assert d < |m.t2|;
      assert Word(s.img[m.t3[0]], d) == m.t2[0 * N + d] != 0;
      assert Word(img[m.t3[0]], d) != 0 && 0 * N + d >= |m.t2[..d]|;
    }
  }

  // ----- the whole removal -----

  /** What a removal from here relies on: the map, and zeros past the end if it has to look there. */
  ghost predicate Reachable3(s: Store, r: Record, m: BlockMap, start: int) {
    && Maps(s.img, r, m) && Exclusive(s.live, m)
    && DIRECT + N + N * N <= start <= r.blocks && start < MAX_BLOCKS
    && (Clean(s.img, r, m) || (WithinSingle(r, start) && Aligned(start - DIRECT - N - N * N, |m.t0|)))
  }

  /** The removal starts inside some single block of the region; from any other start it finds no block to go into. */
  predicate WithinSingle(r: Record, start: int) {
    start < r.blocks || (start - DIRECT) % N != 0
  }

  ghost predicate Removable3(s: Store, r: Record, m: BlockMap, start: int) {
    Reachable3(s, r, m, start) && WithinSingle(r, start)
  }

  /** Everything the removal frees. */
  ghost function FreedByRemoval(m: BlockMap, y: int): multiset<int> {
    FreedInTriple(m, y) + multiset(if y == 0 then m.t3 else [])
  }

  lemma TripleShape(s: Store, r: Record, m: BlockMap, start: int)
    requires Reachable3(s, r, m, start) && m.t0 != []
    ensures var y := start - DIRECT - N - N * N;
      && Region3(s, m, y) && |m.t2| <= N && r.blocks - DIRECT - N - N * N == |m.t0| <= N * N * N
      && m.t3 == [r.triple] && InData(r.triple) && r.triple in s.live
      && |m.direct| == DIRECT && |m.s0| == N && |m.s1| == 1 && |m.d0| == N * N && |m.d1| == N && |m.d2| == 1
      && Pack(s.img, m.t3, m.t2) && Pack(s.img, m.t2, m.t1) && Pack(s.img, m.t1, m.t0)
  {
    hide Word;
    Layers(s.live, m);
    OwnedIsLive(s.live, m, r.triple);
    assert multiset(m.t0) + multiset(m.t1) + multiset(m.t2) <= Owned(m);
  }

  lemma Within3(s: Store, r: Record, m: BlockMap, start: int)
    requires Removable3(s, r, m, start)
    ensures m.t0 != [] && Reachable3(s, r, m, start)
    ensures (start - DIRECT - N - N * N) / N < |m.t1|
    ensures start == r.blocks ==> Reaches(|m.t0|, |m.t1|, start - DIRECT - N - N * N)
  {
    MapShape(s.img, r, m);
    hide Word, Exclusive, Aligned, Clean, Single, Double, Direct;
  }

  lemma TripleWords(s: Store, r: Record, m: BlockMap, start: int, clean: bool)
    requires Reachable3(s, r, m, start) && m.t0 != [] && (clean ==> Clean(s.img, r, m))
    ensures InData(r.triple) && TripleEntries(s.img[r.triple], m, clean)
    ensures clean ==> Tail(s.img, m.t2, m.t1)
  {
    hide Word, Exclusive;
    assert m.t3 == [r.triple];
    forall i | 0 <= i < N
      ensures if i < |m.t2| then Word(s.img[r.triple], i) == m.t2[i] else clean ==> Word(s.img[r.triple], i) == 0
    {
      assert m.t3[0] == r.triple;
      assert i < |m.t2| ==> Word(s.img[m.t3[0]], i) == m.t2[0 * N + i];
      assert clean && i >= |m.t2| ==> 0 * N + i >= |m.t2| && Word(s.img[m.t3[0]], i) == 0;
    }
  }

  /** Aligned removals free just the blocks in excess. */
  lemma FreesExcess(s: Store, r: Record, m: BlockMap, start: int)
    requires Removable3(s, r, m, start) && Aligned(start - DIRECT - N - N * N, |m.t0|)
    ensures FreedByRemoval(m, start - DIRECT - N - N * N) == Excess(m, start)
  {
    hide Aligned, Removable3, FreedBefore, Excess, Truncate;
    var y := start - DIRECT - N - N * N;
    Within3(s, r, m, start);
    TripleShape(s, r, m, start);
    Blocks3(s, m, y);
    TripleExcess(m, start);
    Begin3(s, m, y);
    FreedWhenAligned(m.t0, m.t1, y, |m.t1|);
    DoublesWhenAligned(y, |m.t0|);
    CeilIsFirstWhole(y);
    hide Region3, Pack;
    UptoIsRest(m.t0, y);
    UptoIsRest(m.t1, FirstWhole(y));
    UptoIsRest(m.t2, FirstDouble(y));
    hide Upto, Rest, FirstWhole, FirstDouble, Ceil;
  }

  lemma UptoIsRest(s: seq<int>, a: int)
    requires 0 <= a
    ensures Upto(s, a, |s|) == Rest(s, a)
  {
  }

  /** Unaligned removals do not: they free a double block still needed, or skip a data block. */
  lemma FreesOther(s: Store, r: Record, m: BlockMap, start: int)
    requires Removable3(s, r, m, start) && !Aligned(start - DIRECT - N - N * N, |m.t0|)
    ensures FreedByRemoval(m, start - DIRECT - N - N * N) != Excess(m, start)
  {
    hide Excess, Truncate;
    var y := start - DIRECT - N - N * N;
    Within3(s, r, m, start);
    TripleShape(s, r, m, start);
    Blocks3(s, m, y);
    TripleExcess(m, start);
    Begin3(s, m, y);
    DataApart(s.live, m);
    if y / N % N == 0 {
      FreesNeeded(s, m, y);
    } else {
      SkipsOne(s, m, y);
    }
  }

  lemma FreesNeeded(s: Store, m: BlockMap, y: int)
    requires Exclusive(s.live, m) && NoDuplicates(m.t2) && 0 <= y && y % N != 0 && y / N % N == 0
    requires y / (N * N) < |m.t2|
    ensures var b, c := m.t2[y / (N * N)], FirstWhole(y);
      && b in FreedByRemoval(m, y)
      && b !in multiset(Rest(m.t0, y)) + multiset(Rest(m.t1, c)) + multiset(Rest(m.t2, Ceil(c)))
           + multiset(if y == 0 then m.t3 else [])
  {
    hide FreedBefore;
    var i := y / (N * N);
    var b := m.t2[i];
    var c := FirstWhole(y);
    assert b in m.t2;
    OnlyOne(s.live, m, b);
    hide Exclusive, Owned;
    assert Upto(m.t2, FirstDouble(y), |m.t2|)[0] == b;
    assert b in DoublesBefore(m.t2, y, |m.t2|);
    assert Ceil(c) == i + 1;
    RestIn(m.t0, y, b);
    RestIn(m.t1, c, b);
    assert b !in Rest(m.t2, i + 1);
  }

  lemma RestIn(s: seq<int>, a: int, x: int)
    ensures x in Rest(s, a) ==> x in s
  {
  }

  lemma SkipsOne(s: Store, m: BlockMap, y: int)
    requires Exclusive(s.live, m) && 0 <= y && y % N != 0 && y / N % N != 0
    requires |m.t0| <= |m.t1| * N && ((y / (N * N) + 1) * N + y / N % N) * N < |m.t0|
    requires NoDuplicates(m.t0) && forall x :: x in m.t0 ==> x !in m.t1 && x !in m.t2 && x !in m.t3
    requires y / N == y / (N * N) * N + y / N % N
    ensures var b := m.t0[((y / (N * N) + 1) * N + y / N % N) * N];
      && b !in FreedByRemoval(m, y)
      && b in Rest(m.t0, y)
  {
    hide FreedBefore, DoublesBefore, Exclusive, NoDuplicates, Rest, From;
    var v := (y / (N * N) + 1) * N + y / N % N;
    SkippedAt(y, v);
    var b := m.t0[v * N];
    assert b in m.t0;
    Skipped(m.t0, m.t1, y, v, |m.t1|);
    Doubles(m.t2, y, |m.t2|);
    InRest(m.t0, y, v * N);
    assert b !in m.t3 && b !in m.t2;
  }

  lemma SkippedAt(y: int, v: int)
    requires 0 <= y && y % N != 0 && y / N == y / (N * N) * N + y / N % N && v == (y / (N * N) + 1) * N + y / N % N
    ensures From(y, v) == y % N > 0 && y < v * N
  {
    assert v == y / N + N;
    NextPeriod(y / N);
  }

  lemma NextPeriod(u: int)
    ensures (u + N) % N == u % N
  {
  }

  lemma InRest(s: seq<int>, a: int, i: int)
    requires 0 <= a <= i < |s|
    ensures s[i] in Rest(s, a)
  {
    assert a > 0 ==> s[a..][i - a] == s[i];
  }

  /** The store after the removal: just the blocks in excess are gone. */
  ghost predicate TripleFreed(s: Store, m: BlockMap, y: int, s': Store) {
    && FreedBut(s, FreedByRemoval(m, y), m.t1, s')
    && PartsZeroed(s, m, y, |m.t1|, s')
    && forall i :: 0 <= i < y / N && i < |m.t1| && InData(m.t1[i]) && m.t1[i] in s'.live ==>
         s'.img[m.t1[i]] == s.img[m.t1[i]]
  }

  lemma KeptInTriple(s: Store, r: Record, m: BlockMap, start: int, s': Store)
    requires Removable3(s, r, m, start) && Aligned(start - DIRECT - N - N * N, |m.t0|)
    requires TripleFreed(s, m, start - DIRECT - N - N * N, s')
    ensures multiset(s'.live) + Excess(m, start) == multiset(s.live)
    ensures forall b :: Truncate(m, start).InIndex(b) ==> b in s'.live
    ensures forall b :: InData(b) && Truncate(m, start).InIndex(b) && b !in m.t1 ==> s'.img[b] == s.img[b]
  {
    hide Aligned, FreedByRemoval, Excess, Truncate, PartsZeroed;
    FreesExcess(s, r, m, start);
    Split(m, start);
    assert Exclusive(s.live, m);
    hide Removable3;
    var m' := Truncate(m, start);
    forall b | m'.InIndex(b)
      ensures b in s'.live
    {
      assert b in Owned(m');
      assert (Owned(m') + Excess(m, start))[b] <= multiset(s.live)[b] == multiset(s'.live)[b] + Excess(m, start)[b];
    }
  }

  lemma HeldAfter(s: Store, r: Record, m: BlockMap, start: int, s': Store)
    requires Removable3(s, r, m, start) && Aligned(start - DIRECT - N - N * N, |m.t0|)
    requires TripleFreed(s, m, start - DIRECT - N - N * N, s')
    ensures AllInData(m.t1) && AllInData(m.t2) && AllInData(m.t3)
    ensures TripleHeld(s, m, start - DIRECT - N - N * N, s'.img)
    ensures Same(s.img, s'.img, m.s1) && Same(s.img, s'.img, m.d1) && Same(s.img, s'.img, m.d2)
  {
    hide Aligned, FreedByRemoval, Excess, EntriesIn, Word;
    var y := start - DIRECT - N - N * N;
    Within3(s, r, m, start);
    TripleShape(s, r, m, start);
    KeptInTriple(s, r, m, start, s');
    TripleExcess(m, start);
    IndexApart(s.live, m);
    hide Removable3;
    var c := FirstWhole(y);
    forall i | 0 <= i < y / N && i < |m.t1|
      ensures s'.img[m.t1[i]] == s.img[m.t1[i]]
    {
      InCut(m.t1, c, i);
    }
    forall i | 0 <= i < Ceil(c) && i < |m.t2|
      ensures s'.img[m.t2[i]] == s.img[m.t2[i]]
    {
      InCut(m.t2, Ceil(c), i);
      assert m.t2[i] in m.t2;
    }
  }

  lemma InCut(s: seq<int>, n: int, i: int)
    requires 0 <= i < |s| && i < n
    ensures s[i] in Cut(s, n)
  {
    assert Cut(s, n)[i] == s[i];
  }

  ghost predicate TripleFields(r: Record, start: int, r': Record) {
    r' == r.(blocks := start, triple := if start == DIRECT + N + N * N then 0 else r.triple)
  }

  lemma TripleMaps(s: Store, r: Record, m: BlockMap, start: int, img': Image, r': Record)
    requires Removable3(s, r, m, start) && TripleFields(r, start, r')
    requires TripleLeft(img', m, start - DIRECT - N - N * N)
    requires Same(s.img, img', m.s1) && Same(s.img, img', m.d1) && Same(s.img, img', m.d2)
    ensures Maps(img', r', Truncate(m, start)) && OnlyAddresses(r, r')
  {
    hide Word, Aligned, Excess, Removable3, Reachable3, Exclusive, Region3, Truncate;
    Within3(s, r, m, start);
    MapsHere(s, r, m, start);
    PackFrame(s.img, img', m.s1, m.s0);
    PackFrame(s.img, img', m.d1, m.d0);
    PackFrame(s.img, img', m.d2, m.d1);
    TripleShape(s, r, m, start);
    CutIs(m.t0, start - DIRECT - N - N * N);
    hide Cut;
    TripleExcess(m, start);
  }

  lemma TripleClean(s: Store, r: Record, m: BlockMap, start: int, img': Image, r': Record)
    requires Removable3(s, r, m, start) && TripleFields(r, start, r') && Clean(s.img, r, m)
    requires AllInData(m.t1) && AllInData(m.t2) && AllInData(m.t3)
    requires TripleHeld(s, m, start - DIRECT - N - N * N, img')
    requires Same(s.img, img', m.s1) && Same(s.img, img', m.d1) && Same(s.img, img', m.d2)
    ensures Clean(img', r', Truncate(m, start)) <==>
      start == DIRECT + N + N * N || FirstWhole(start - DIRECT - N - N * N) == |m.t1|
  {
    hide Word, Aligned, Excess, TripleHeld, Removable3, Maps, Exclusive, Region3, Truncate, Pack, Tail, Same, Cut,
         FirstWhole, AllInData;
    Within3(s, r, m, start);
    MapsHere(s, r, m, start);
    IndexInData(s.img, r, m);
    PackFrame(s.img, img', m.s1, m.s0);
    PackFrame(s.img, img', m.d1, m.d0);
    PackFrame(s.img, img', m.d2, m.d1);
    TripleShape(s, r, m, start);
    Blocks3(s, m, start - DIRECT - N - N * N);
    TripleExcess(m, start);
    var y := start - DIRECT - N - N * N;
    if y > 0 {
      TripleTails(s, m, y, img');
    } else {
      AllCut(m, y);
    }
  }

  lemma MapsHere(s: Store, r: Record, m: BlockMap, start: int)
    requires Reachable3(s, r, m, start)
    ensures Maps(s.img, r, m) && DIRECT + N + N * N <= start <= r.blocks && start < MAX_BLOCKS
  {
    hide Maps, Exclusive, Clean, Aligned;
  }

  /** Nothing is left of the region when the cut is at its start. */
  lemma AllCut(m: BlockMap, y: int)
    requires y == 0
    ensures FirstWhole(y) == 0 && Ceil(FirstWhole(y)) == 0
    ensures forall s :: Cut(s, 0) == []
    ensures forall img: Image :: Tail(img, [], [])
  {
  }

  /** An aligned removal meets its contract. */
  lemma TripleDone(s: Store, r: Record, m: BlockMap, start: int, s': Store, r': Record)
    requires Removable3(s, r, m, start) && Aligned(start - DIRECT - N - N * N, |m.t0|)
    requires TripleFreed(s, m, start - DIRECT - N - N * N, s') && TripleFields(r, start, r')
    ensures Removed(s, r, m, start, multiset{}, s', r')
    ensures Clean(s.img, r, m) ==> (Clean(s'.img, r', Truncate(m, start)) <==>
        start == DIRECT + N + N * N || FirstWhole(start - DIRECT - N - N * N) == |m.t1|)
  {
    hide Word, Aligned, Excess, Truncate, TripleHeld, TripleLeft, Removable3, Clean, Maps, Region3, Pack,
         FreedByRemoval, PartsZeroed;
    var y := start - DIRECT - N - N * N;
    Within3(s, r, m, start);
    TripleShape(s, r, m, start);
    Blocks3(s, m, y);
    HeldAfter(s, r, m, start, s');
    KeptInTriple(s, r, m, start, s');
    TripleLeaves(s, m, y, s'.img);
    TripleMaps(s, r, m, start, s'.img, r');
    if Clean(s.img, r, m) {
      TripleClean(s, r, m, start, s'.img, r');
    }
    TouchedOrFreed(s, r, m, start, s');
  }

  lemma TripleUpper(s: Store, r: Record, m: BlockMap, start: int, s': Store)
    requires Removable3(s, r, m, start) && Aligned(start - DIRECT - N - N * N, |m.t0|)
    requires TripleFreed(s, m, start - DIRECT - N - N * N, s')
    ensures UpperKept(s.img, s'.img, Truncate(m, start))
  {
    hide Word, Aligned, TripleFreed, FreedByRemoval, Excess;
    KeptInTriple(s, r, m, start, s');
    Within3(s, r, m, start);
    TripleShape(s, r, m, start);
    TripleExcess(m, start);
    IndexApart(s.live, m);
    hide Removable3, Region3, Exclusive;
    var c := Ceil(FirstWhole(start - DIRECT - N - N * N));
    forall b | b in Cut(m.t2, c)
      ensures b in m.t2
    {
      CutIn(m.t2, c, b);
    }
  }

  /** A single block that the loops rewrote is freed, or is the one the removal starts inside of. */
  lemma TouchedOrFreed(s: Store, r: Record, m: BlockMap, start: int, s': Store)
    requires Removable3(s, r, m, start) && Aligned(start - DIRECT - N - N * N, |m.t0|)
    requires TripleFreed(s, m, start - DIRECT - N - N * N, s')
    ensures forall b :: 0 <= b < BLOCK_COUNT && b in s'.live && !Truncate(m, start).InIndex(b) ==> s'.img[b] == s.img[b]
  {
    hide Word, Aligned, FreedByRemoval, PartsZeroed, Excess;
    var y := start - DIRECT - N - N * N;
    KeptInTriple(s, r, m, start, s');
    Within3(s, r, m, start);
    TripleShape(s, r, m, start);
    TripleExcess(m, start);
    hide Removable3;
    forall b | b in m.t1 && !Truncate(m, start).InIndex(b)
      ensures b !in s'.live
    {
      InCutOrRest(m.t1, FirstWhole(y), b);
      assert b in Excess(m, start);
      assert multiset(s'.live)[b] + Excess(m, start)[b] == multiset(s.live)[b] <= 1;
    }
  }

  lemma InCutOrRest(s: seq<int>, n: int, x: int)
    requires x in s
    ensures x in Cut(s, n) || x in Rest(s, n)
  {
    CutRest(s, n);
    assert multiset(s)[x] == multiset(Cut(s, n))[x] + multiset(Rest(s, n))[x];
  }

  /** An unaligned one does not, whether it runs to the end or stops at a missing block. */
  lemma TripleNotDone(s: Store, r: Record, m: BlockMap, start: int, s': Store, r': Record)
    requires Removable3(s, r, m, start) && !Aligned(start - DIRECT - N - N * N, |m.t0|)
    requires (start < r.blocks && r'.blocks == r.blocks)
      || multiset(s'.live) + FreedByRemoval(m, start - DIRECT - N - N * N) == multiset(s.live)
    ensures !Removed(s, r, m, start, multiset{}, s', r')
  {
    hide Aligned, FreedByRemoval, Excess, Truncate;
    FreesOther(s, r, m, start);
    Within3(s, r, m, start);
    TripleShape(s, r, m, start);
    TruncateData(m, start);
    hide Removable3, Region3;
    if multiset(s'.live) + FreedByRemoval(m, start - DIRECT - N - N * N) == multiset(s.live) {
      Cancel(multiset(s'.live), FreedByRemoval(m, start - DIRECT - N - N * N), Excess(m, start));
      assert multiset(s.live) + multiset{} == multiset(s.live);
    }
  }

  lemma Cancel(a: multiset<int>, b: multiset<int>, c: multiset<int>)
    ensures a + b == a + c ==> b == c
  {
    if a + b == a + c {
      forall x
        ensures b[x] == c[x]
      {
        assert (a + b)[x] == (a + c)[x];
      }
    }
  }

  lemma LoopsFreed(s: Store, m: BlockMap, y: int, s1: Store)
    requires Region3(s, m, y) && Standing(s, m, y, |m.t1|, |m.t2|, s1)
    ensures FreedBut(s, FreedInTriple(m, y), m.t1, s1) && PartsZeroed(s, m, y, |m.t1|, s1)
    ensures forall i :: 0 <= i < y / N && i < |m.t1| && InData(m.t1[i]) && m.t1[i] in s1.live ==>
      s1.img[m.t1[i]] == s.img[m.t1[i]]
  {
    hide FreedBefore, DoublesBefore, ZeroedEntries, EntriesIn, Pack, PartsZeroed;
    var touched := Upto(m.t1, y / N, |m.t1|);
    forall b | b in touched
      ensures b in m.t1
    {
      UptoIn(m.t1, y / N, |m.t1|, b);
    }
    forall i | 0 <= i < y / N && i < |m.t1|
      ensures m.t1[i] !in touched
    {
    }
  }

  lemma RootApart(s: Store, m: BlockMap, y: int, s1: Store, root: int)
    requires Region3(s, m, y) && Exclusive(s.live, m) && m.t3 == [root]
    requires FreedBut(s, FreedInTriple(m, y), m.t1, s1)
    ensures root in s1.live && root !in m.t1
  {
    Blocks3(s, m, y);
    Begin3(s, m, y);
    FreedBeforeFits(m.t0, m.t1, y, |m.t1|);
    Doubles(m.t2, y, |m.t2|);
    OnlyOne(s.live, m, root);
    OwnedIsLive(s.live, m, root);
    hide FreedBefore, DoublesBefore, Pack, NoDuplicates, Upto, Exclusive, Standing, Region3;
    var f, h := FreedBefore(m.t0, m.t1, y, |m.t1|), DoublesBefore(m.t2, y, |m.t2|);
    assert multiset(m.t3)[root] == 1;
    assert f[root] <= (multiset(m.t0) + multiset(m.t1))[root];
    assert h[root] <= multiset(m.t2)[root];
    assert multiset(s1.live)[root] + f[root] + h[root] == multiset(s.live)[root];
  }

  /** The root goes too when nothing is left in the region. */
  lemma RootFreed(s: Store, m: BlockMap, y: int, s1: Store, root: int, s': Store)
    requires FreedBut(s, FreedInTriple(m, y), m.t1, s1) && PartsZeroed(s, m, y, |m.t1|, s1)
    requires forall i :: 0 <= i < y / N && i < |m.t1| && InData(m.t1[i]) && m.t1[i] in s1.live ==>
      s1.img[m.t1[i]] == s.img[m.t1[i]]
    requires m.t3 == [root]
    requires if y == 0 then Freed(s1, multiset{root}, s') else s' == s1
    ensures TripleFreed(s, m, y, s')
  {
    hide FreedInTriple, ZeroedEntries, EntriesIn;
    var f := FreedInTriple(m, y);
    assert multiset(if y == 0 then m.t3 else []) == if y == 0 then multiset{root} else multiset{};
    if y == 0 {
      forall b | b in s'.live
        ensures b in s1.live
      {
        assert multiset(s'.live)[b] + multiset{root}[b] == multiset(s1.live)[b];
      }
      assert multiset(s'.live) + (f + multiset{root}) == (multiset(s'.live) + multiset{root}) + f;
    }
  }

  /** What the loops freed, and the root if it went too, by position. */
  lemma LeftAfter(s: Store, m: BlockMap, y: int, doubles: int, root: bool, live': set<int>)
    requires Exclusive(s.live, m) && 0 <= y && 0 <= doubles <= |m.t2| && m.t0 != []
    requires multiset(live') + (FreedBefore(m.t0, m.t1, y, |m.t1|) + DoublesBefore(m.t2, y, doubles))
      + multiset(if root then m.t3 else []) == multiset(s.live)
    requires |m.t0| <= |m.t1| * N
    ensures LeftInTriple(s.live, m, y, doubles, root, live')
  {
    hide FreedBefore, DoublesBefore, From, FirstDouble, DataGone, SingleGone, DoubleGone, Owned, Exclusive;
    Apart3(s.live, m);
    GoneMeans(y);
    var f, h := FreedBefore(m.t0, m.t1, y, |m.t1|), DoublesBefore(m.t2, y, doubles);
    forall b
      ensures multiset(live')[b] + f[b] + h[b] + multiset(if root then m.t3 else [])[b] == multiset(s.live)[b]
    {
      assert (multiset(live') + (f + h) + multiset(if root then m.t3 else []))[b] == multiset(s.live)[b];
    }
    forall x | 0 <= x < |m.t0|
      ensures m.t0[x] in live' <==> !DataGone(y, x)
    {
      assert ApartFrom(s.live, m.t0[x], m.t1, m.t2, m.t3);
      DataFreed(m.t0, m.t1, y, |m.t1|, x);
      NotDouble(m.t2, y, doubles, m.t0[x]);
    }
    forall u | 0 <= u < |m.t1|
      ensures m.t1[u] in live' <==> !SingleGone(y, u)
    {
      assert ApartFrom(s.live, m.t1[u], m.t0, m.t2, m.t3);
      SingleFreed3(m.t0, m.t1, y, |m.t1|, u);
      NotDouble(m.t2, y, doubles, m.t1[u]);
    }
    forall i | 0 <= i < |m.t2|
      ensures m.t2[i] in live' <==> !(DoubleGone(y, i) && i < doubles)
    {
      assert ApartFrom(s.live, m.t2[i], m.t0, m.t1, m.t3);
      OtherFreed(m.t0, m.t1, y, |m.t1|, m.t2[i]);
      DoubleFreed3(m.t2, y, doubles, i);
    }
    forall b | b in s.live && b !in m.t0 && b !in m.t1 && b !in m.t2
      ensures b in live' <==> !(root && b in m.t3)
    {
      OtherFreed(m.t0, m.t1, y, |m.t1|, b);
      NotDouble(m.t2, y, doubles, b);
    }
    forall b | b in live'
      ensures b in s.live
    {
      assert multiset(live')[b] == 1;
    }
  }

  lemma NotDouble(doubles: seq<int>, y: int, i: int, b: int)
    requires b !in doubles
    ensures DoublesBefore(doubles, y, i)[b] == 0
  {
    UptoIn(doubles, FirstDouble(y), i, b);
  }

  /** The blocks of the triple tree are live and all different. */
  lemma Apart3(live: set<int>, m: BlockMap)
    requires Exclusive(live, m)
    ensures NoDuplicates(m.t0) && NoDuplicates(m.t1) && NoDuplicates(m.t2)
    ensures forall x :: 0 <= x < |m.t0| ==> ApartFrom(live, m.t0[x], m.t1, m.t2, m.t3)
    ensures forall x :: 0 <= x < |m.t1| ==> ApartFrom(live, m.t1[x], m.t0, m.t2, m.t3)
    ensures forall x :: 0 <= x < |m.t2| ==> ApartFrom(live, m.t2[x], m.t0, m.t1, m.t3)
  {
    forall x
      ensures multiset(m.t0)[x] <= 1 && multiset(m.t1)[x] <= 1 && multiset(m.t2)[x] <= 1
      ensures x in m.t0 ==> ApartFrom(live, x, m.t1, m.t2, m.t3)
      ensures x in m.t1 ==> ApartFrom(live, x, m.t0, m.t2, m.t3)
      ensures x in m.t2 ==> ApartFrom(live, x, m.t0, m.t1, m.t3)
    {
      assert Owned(m)[x] <= multiset(live)[x] <= 1;
    }
    UniqueSeq(m.t0);
    UniqueSeq(m.t1);
    UniqueSeq(m.t2);
    hide Exclusive, Owned, ApartFrom;
    InApart(live, m.t0, m.t1, m.t2, m.t3);
    InApart(live, m.t1, m.t0, m.t2, m.t3);
    InApart(live, m.t2, m.t0, m.t1, m.t3);
  }

  predicate ApartFrom(live: set<int>, b: int, s: seq<int>, t: seq<int>, u: seq<int>) {
    b in live && b !in s && b !in t && b !in u
  }

  lemma InApart(live: set<int>, a: seq<int>, s: seq<int>, t: seq<int>, u: seq<int>)
    requires forall x :: x in a ==> ApartFrom(live, x, s, t, u)
    ensures forall x :: 0 <= x < |a| ==> ApartFrom(live, a[x], s, t, u)
  {
    hide ApartFrom;
    forall x | 0 <= x < |a|
      ensures ApartFrom(live, a[x], s, t, u)
    {
      var b := a[x];
      assert b in a;
    }
  }

  lemma Reached(s: Store, r: Record, m: BlockMap, start: int, clean: bool)
    requires Reachable3(s, r, m, start) && m.t0 != [] && clean == Clean(s.img, r, m)
    ensures WithinSingle(r, start) && Aligned(start - DIRECT - N - N * N, |m.t0|) ==>
      Reaches(|m.t0|, |m.t1|, start - DIRECT - N - N * N)
    ensures clean || Reaches(|m.t0|, |m.t1|, start - DIRECT - N - N * N)
    ensures WithinSingle(r, start) && start == r.blocks ==> Reaches(|m.t0|, |m.t1|, start - DIRECT - N - N * N)
  {
    TripleShape(s, r, m, start);
    if WithinSingle(r, start) {
      Within3(s, r, m, start);
    }
    hide Aligned, Reaches, Clean;
    if WithinSingle(r, start) && Aligned(start - DIRECT - N - N * N, |m.t0|) {
      AlignedReaches(start - DIRECT - N - N * N, |m.t0|, |m.t1|);
    }
  }

  lemma EndingFrom(y: int)
    requires 0 <= y
    ensures N * N * (y / (N * N)) + N * (y / N % N) == y / N * N
  {
    assert y / (N * N) == y / N / N;
  }

  lemma TripleOutcome(s: Store, r: Record, m: BlockMap, start: int, s': Store, r': Record)
    requires Removable3(s, r, m, start)
    requires TripleFreed(s, m, start - DIRECT - N - N * N, s') && TripleFields(r, start, r')
    ensures Removed(s, r, m, start, multiset{}, s', r') <==> Aligned(start - DIRECT - N - N * N, |m.t0|)
    ensures Aligned(start - DIRECT - N - N * N, |m.t0|) ==> UpperKept(s.img, s'.img, Truncate(m, start))
    ensures Aligned(start - DIRECT - N - N * N, |m.t0|) && Clean(s.img, r, m) ==>
      (Clean(s'.img, r', Truncate(m, start)) <==>
        start == DIRECT + N + N * N || FirstWhole(start - DIRECT - N - N * N) == |m.t1|)
  {
    hide Removable3, UpperKept, Aligned, Removed, Clean, FirstWhole, Truncate, FreedByRemoval, PartsZeroed;
    if Aligned(start - DIRECT - N - N * N, |m.t0|) {
      TripleDone(s, r, m, start, s', r');
      TripleUpper(s, r, m, start, s');
    } else {
      TripleNotDone(s, r, m, start, s', r');
    }
  }

  /** Which starts find a single block to go into. */
  lemma StartsWithin(s: Store, r: Record, m: BlockMap, start: int)
    requires Reachable3(s, r, m, start)
    ensures m.t0 == [] ==> r.triple == 0 && start == r.blocks && !WithinSingle(r, start)
    ensures Exclusive(s.live, m) && DIRECT + N + N * N <= start <= r.blocks
    ensures !WithinSingle(r, start) ==>
      && start == r.blocks && Clean(s.img, r, m)
      && (m.t0 != [] ==> (start - DIRECT - N - N * N) / N == |m.t1|)
    ensures start - DIRECT - N - N * N < N * N * N
  {
    MapShape(s.img, r, m);
    hide Word, Exclusive, Aligned, Single, Double, Direct, Tail;
  }

  /**
   * The loops ran through: the blocks that the positions say were freed, the single blocks gone into at an offset keep
   * their entries before it, and the inode has the new block count.
   */
  ghost predicate RanThrough(s: Store, r: Record, m: BlockMap, start: int, s': Store, r': Record) {
    var y := start - DIRECT - N - N * N;
    && TripleFreed(s, m, y, s') && TripleFields(r, start, r')
    && LeftInTriple(s.live, m, y, |m.t2|, y == 0, s'.live)
  }

  /** They stopped behind the last single block: the double block it belongs to is left, unless it was full. */
  ghost predicate StoppedShort(s: Store, m: BlockMap, y: int, s': Store) {
    && FreedBut(s, FreedBefore(m.t0, m.t1, y, |m.t1|) + DoublesBefore(m.t2, y, |m.t1| / N), m.t1, s')
    && PartsZeroed(s, m, y, |m.t1|, s')
    && LeftInTriple(s.live, m, y, |m.t1| / N, false, s'.live)
  }

  lemma IsRanThrough(s: Store, r: Record, m: BlockMap, start: int, s': Store, r': Record)
    requires Reachable3(s, r, m, start) && m.t0 != []
    requires TripleFreed(s, m, start - DIRECT - N - N * N, s') && TripleFields(r, start, r')
    ensures RanThrough(s, r, m, start, s', r')
  {
    hide FreedBefore, DoublesBefore, PartsZeroed, LeftInTriple, TripleFreed, Maps, Region3, Aligned, Clean, Pack,
         Exclusive;
    var y := start - DIRECT - N - N * N;
    TripleShape(s, r, m, start);
    Blocks3(s, m, y);
    AllFreed(s, m, y, s');
    LeftAfter(s, m, y, |m.t2|, y == 0, s'.live);
  }

  lemma AllFreed(s: Store, m: BlockMap, y: int, s': Store)
    requires TripleFreed(s, m, y, s')
    ensures multiset(s'.live) + (FreedBefore(m.t0, m.t1, y, |m.t1|) + DoublesBefore(m.t2, y, |m.t2|))
      + multiset(if y == 0 then m.t3 else []) == multiset(s.live)
  {
    hide FreedBefore, DoublesBefore, PartsZeroed;
    var f, g := FreedInTriple(m, y), multiset(if y == 0 then m.t3 else []);
    assert multiset(s'.live) + f + g == multiset(s'.live) + (f + g);
  }

  lemma LoopsStopped(s: Store, m: BlockMap, y: int, s': Store)
    requires Region3(s, m, y) && Exclusive(s.live, m) && m.t0 != []
    requires Standing(s, m, y, |m.t1|, |m.t1| / N, s')
    ensures StoppedShort(s, m, y, s')
  {
    Blocks3(s, m, y);
    hide FreedBefore, DoublesBefore, PartsZeroed, LeftInTriple, Region3, Pack, Exclusive;
    forall b | b in Upto(m.t1, y / N, |m.t1|)
      ensures b in m.t1
    {
      UptoIn(m.t1, y / N, |m.t1|, b);
    }
    var f := FreedBefore(m.t0, m.t1, y, |m.t1|) + DoublesBefore(m.t2, y, |m.t1| / N);
    assert multiset(s'.live) + f + multiset([]) == multiset(s'.live) + f;
    LeftAfter(s, m, y, |m.t1| / N, false, s'.live);
  }

  /** A removal from inside a single block of the region. */
  method RemoveFromTriple(disk: Disk, node: Inode, start: int, ghost m: BlockMap) returns (ok: bool)
    requires disk.Valid() && Reachable3(disk.Now(), node.Rec(), m, start)
    modifies disk, disk.mem, node
    ensures disk.Valid()
    ensures !WithinSingle(old(node.Rec()), start) ==>
      !ok && disk.Now() == old(disk.Now()) && node.Rec() == old(node.Rec())
    ensures WithinSingle(old(node.Rec()), start) ==>
      (Aligned(start - DIRECT - N - N * N, |m.t0|) <==>
        Removed(old(disk.Now()), old(node.Rec()), m, start, multiset{}, disk.Now(), node.Rec()))
    ensures WithinSingle(old(node.Rec()), start) ==>
      && (ok <==> Reaches(|m.t0|, |m.t1|, start - DIRECT - N - N * N) || |m.t1| == N * N)
      && (Aligned(start - DIRECT - N - N * N, |m.t0|) || start == old(node.blocks) ==> ok)
      && if ok then
           RanThrough(old(disk.Now()), old(node.Rec()), m, start, disk.Now(), node.Rec())
         else
           StoppedShort(old(disk.Now()), m, start - DIRECT - N - N * N, disk.Now()) && node.Rec() == old(node.Rec())
    ensures ok && Aligned(start - DIRECT - N - N * N, |m.t0|) ==> UpperKept(old(disk.img), disk.img, Truncate(m, start))
    ensures ok && Aligned(start - DIRECT - N - N * N, |m.t0|) && old(Clean(disk.img, node.Rec(), m)) ==>
      (Clean(disk.img, node.Rec(), Truncate(m, start)) <==>
        start == DIRECT + N + N * N || FirstWhole(start - DIRECT - N - N * N) == |m.t1|)
  {
    hide disk.Valid, Word, Freed, FreedBut, PartsZeroed, Truncate, Removed, Clean, Reachable3, Region3, Aligned,
         Standing, TripleFreed, FirstWhole, Pack, Exclusive, FreedInTriple, Reaches, Tail, TripleEntries, WithinSingle,
         UpperKept, RanThrough, StoppedShort;
    ghost var s, r, clean := disk.Now(), node.Rec(), Clean(disk.img, node.Rec(), m);
    StartsWithin(s, r, m, start);
    if node.triple == 0 {
      if m.t0 != [] {
        TripleShape(s, r, m, start);
        assert false;
      }
      return false;
    }
    TripleShape(s, r, m, start);
    TripleWords(s, r, m, start, clean);
    var y := start - DIRECT - N - N * N;
    var block := ReadDataBlock(disk, node.triple);
    var ending := node.blocks - (N * N + N + DIRECT) - (N * N * (y / (N * N)) + N * (y / N % N));
    Reached(s, r, m, start, clean);
    EndingFrom(y);
    ok := EmptyTriple(disk, block.value, y, ending, s, m, clean);
    if !ok {
      LoopsStopped(s, m, y, disk.Now());
      if WithinSingle(r, start) {
        TripleNotDone(s, r, m, start, disk.Now(), node.Rec());
      }
      return;
    }
    ghost var s1 := disk.Now();
    LoopsFreed(s, m, y, s1);
    RootApart(s, m, y, s1, r.triple);
    if y == 0 {
      var freed := FreeLive(disk, node.triple);
      if !freed {
        return false;
      }
      node.triple := 0;
    }
    node.blocks := start;
    RootFreed(s, m, y, s1, r.triple, disk.Now());
    TripleOutcome(s, r, m, start, disk.Now(), node.Rec());
    IsRanThrough(s, r, m, start, disk.Now(), node.Rec());
  }
}
