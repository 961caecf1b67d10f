/**
 * What removing the blocks of an inode from a given one onward should do (src/inode.cpp,
 * remove_datablocks_range_from_inode).
 */
module Removal {
  import opened Geometry
  import opened LayerZero
  import opened Inodes
  import opened BlockMaps

  // ----- the intended result -----

  function Cut(s: seq<int>, n: int): seq<int> {
    if n <= 0 then [] else if n < |s| then s[..n] else s
  }

  function Rest(s: seq<int>, n: int): seq<int> {
    if n <= 0 then s else if n < |s| then s[n..] else []
  }

  /** How many blocks of N entries n children need. */
  function Ceil(n: int): int {
    if n <= 0 then 0 else (n + N - 1) / N
  }

  /** The first k blocks of a map, with just the index blocks they need. */
  function Truncate(m: BlockMap, k: int): BlockMap {
    var s := k - DIRECT;
    var d := s - N;
    var t := d - N * N;
    BlockMap(
      Cut(m.direct, k),
      Cut(m.s0, s), Cut(m.s1, Ceil(s)),
      Cut(m.d0, d), Cut(m.d1, Ceil(d)), Cut(m.d2, Ceil(Ceil(d))),
      Cut(m.t0, t), Cut(m.t1, Ceil(t)), Cut(m.t2, Ceil(Ceil(t))), Cut(m.t3, Ceil(Ceil(Ceil(t)))))
  }

  /** Data blocks k and up, and the index blocks only they need. */
  ghost function Excess(m: BlockMap, k: int): multiset<int> {
    var s := k - DIRECT;
    var d := s - N;
    var t := d - N * N;
    multiset(Rest(m.direct, k))
    + multiset(Rest(m.s0, s)) + multiset(Rest(m.s1, Ceil(s)))
    + multiset(Rest(m.d0, d)) + multiset(Rest(m.d1, Ceil(d))) + multiset(Rest(m.d2, Ceil(Ceil(d))))
    + multiset(Rest(m.t0, t)) + multiset(Rest(m.t1, Ceil(t))) + multiset(Rest(m.t2, Ceil(Ceil(t))))
    + multiset(Rest(m.t3, Ceil(Ceil(Ceil(t)))))
  }

  lemma KeptWhole(s: seq<int>, n: int)
    requires n >= |s|
    ensures Cut(s, n) == s && Rest(s, n) == []
  {
  }

  lemma GoneWhole(s: seq<int>, n: int)
    requires n <= 0
    ensures Cut(s, n) == [] && Rest(s, n) == s
  {
  }

  /**
   * The inode now maps its first k blocks and nothing more. The blocks in excess were given back, each once,
   * all but those in `lost`, which stay allocated to no use. Every other block still live holds what it held,
   * except the index blocks still in use.
   */
  ghost predicate Removed(s: Store, r: Record, m: BlockMap, k: int, lost: multiset<int>, s': Store, r': Record) {
    && Maps(s'.img, r', Truncate(m, k))
    && multiset(s'.live) + Excess(m, k) == multiset(s.live) + lost
    && (forall b :: 0 <= b < BLOCK_COUNT && b in s'.live && !Truncate(m, k).InIndex(b) && b !in lost ==>
          s'.img[b] == s.img[b])
    && OnlyAddresses(r, r')
  }

  /** The index blocks of map m that lie above others hold what they held. */
  ghost predicate UpperKept(img: Image, img': Image, m: BlockMap) {
    Same(img, img', m.d2) && Same(img, img', m.t2) && Same(img, img', m.t3)
  }

  lemma CutRest(s: seq<int>, n: int)
    ensures s == Cut(s, n) + Rest(s, n)
    ensures multiset(s) == multiset(Cut(s, n)) + multiset(Rest(s, n))
  {
    assert s == Cut(s, n) + Rest(s, n);
  }

  /** The intended result splits the map's blocks into the ones kept and the ones in excess. */
  lemma Split(m: BlockMap, k: int)
    ensures Owned(m) == Owned(Truncate(m, k)) + Excess(m, k)
  {
    var s := k - DIRECT;
    var d := s - N;
    var t := d - N * N;
    CutRest(m.direct, k);
    CutRest(m.s0, s);
    CutRest(m.s1, Ceil(s));
    CutRest(m.d0, d);
    CutRest(m.d1, Ceil(d));
    CutRest(m.d2, Ceil(Ceil(d)));
    CutRest(m.t0, t);
    CutRest(m.t1, Ceil(t));
    CutRest(m.t2, Ceil(Ceil(t)));
    CutRest(m.t3, Ceil(Ceil(Ceil(t))));
    hide Cut, Rest, Ceil;
  }

  /** The intended result maps exactly the first k blocks of the file. */
  lemma TruncateData(m: BlockMap, k: int)
    requires Staircase(m) && |m.direct| <= DIRECT && |m.s0| <= N && |m.d0| <= N * N
    requires 0 <= k <= |m.Data()|
    ensures Truncate(m, k).Data() == m.Data()[..k]
  {
  }
}
