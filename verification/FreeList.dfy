/** The linked list of freed blocks, threaded through word 0 of the blocks themselves. */
module FreeList {
  import opened Geometry
  import opened Words

  ghost predicate NoDuplicates<T>(s: seq<T>) {
    forall i, j :: 0 <= i < j < |s| ==> s[i] != s[j]
  }

  lemma LastApart<T>(s: seq<T>)
    requires NoDuplicates(s) && s != []
    ensures s[|s| - 1] !in s[..|s| - 1]
  {
  }

  /** What a freed block holds: the next list element, then zeros. */
  function LinkBlock(next: int): Block
    requires IsInt64(next)
  {
    PutWord(ZeroBlock(), 0, next)
  }

  lemma LinkBlockWords(next: int)
    requires IsInt64(next)
    ensures Word(LinkBlock(next), 0) == next
    ensures forall j :: 1 <= j < N ==> Word(LinkBlock(next), j) == 0
  {
    PutWordAll(ZeroBlock(), 0, next);
    ZeroBlockWords();
  }

  function Head(free: seq<int>): int {
    if free == [] then 0 else free[0]
  }

  /** The blocks of `free`, in order, are exactly the list that starts at `head`. */
  ghost predicate Linked(img: Image, head: int, free: seq<int>) {
    && (forall i :: 0 <= i < |free| ==> InData(free[i]))
    && head == Head(free)
    && forall i :: 0 <= i < |free| ==> img[free[i]] == LinkBlock(Head(free[i + 1..]))
  }

  /** The blocks handed out and not given back. */
  ghost function LiveBlocks(maxAlloc: int, free: seq<int>): set<int> {
    set b | b in Range(INODE_BLOCK_COUNT + 1, maxAlloc) && b !in free
  }

  ghost function Range(lo: int, hi: int): (s: set<int>)
    ensures forall b :: b in s <==> lo <= b < hi
    decreases hi - lo
  {
    if hi <= lo then {} else Range(lo, hi - 1) + {hi - 1}
  }

  ghost predicate Allocator(img: Image, maxAlloc: int, head: int, free: seq<int>) {
    && INODE_BLOCK_COUNT < maxAlloc <= NUM_OF_DATA_BLOCKS
    && Linked(img, head, free)
    && NoDuplicates(free)
    && forall i :: 0 <= i < |free| ==> free[i] < maxAlloc
  }

  /** How many blocks can be live at once: all but two areas of the size of the inode area, and a block each. */
  ghost function Capacity(): (c: int)
    ensures c == LAYOUT.blocks - 2 * LAYOUT.inodeBlocks - 2
  {
    NUM_OF_DATA_BLOCKS - INODE_BLOCK_COUNT - 1
  }

  // ----- conservation -----

  ghost function Elements<T>(s: seq<T>): set<T> {
    set x | x in s
  }

  lemma {:induction false} ElementsCount<T>(s: seq<T>)
    requires NoDuplicates(s)
    ensures |Elements(s)| == |s|
  {
    if s != [] {
      var n := |s| - 1;
      ElementsCount(s[..n]);
      assert Elements(s) == Elements(s[..n]) + {s[n]};
    }
  }

  lemma {:induction false} RangeCount(lo: int, hi: int)
    requires lo <= hi
    ensures |Range(lo, hi)| == hi - lo
    decreases hi - lo
  {
    if lo < hi {
      RangeCount(lo, hi - 1);
    }
  }

  /** Nothing is free exactly when the list is empty and the bump pointer is at its bound. */
  lemma FullWhen(img: Image, maxAlloc: int, head: int, free: seq<int>)
    requires Allocator(img, maxAlloc, head, free)
    ensures head == Head(free) && (head == 0 <==> free == [])
    ensures |LiveBlocks(maxAlloc, free)| <= Capacity()
    ensures |LiveBlocks(maxAlloc, free)| == Capacity() <==> head == 0 && maxAlloc == NUM_OF_DATA_BLOCKS
  {
    Conservation(maxAlloc, free);
  }

  /** Live, listed and never-touched blocks always add up to the whole data area. */
  lemma Conservation(maxAlloc: int, free: seq<int>)
    requires INODE_BLOCK_COUNT < maxAlloc && NoDuplicates(free)
    requires forall i :: 0 <= i < |free| ==> INODE_BLOCK_COUNT < free[i] < maxAlloc
    ensures |LiveBlocks(maxAlloc, free)| + |free| + (NUM_OF_DATA_BLOCKS - maxAlloc) == Capacity()
  {
    hide LiveBlocks, Elements, Range, NoDuplicates;
    LiveOrListed(maxAlloc, free);
    ElementsCount(free);
    RangeCount(INODE_BLOCK_COUNT + 1, maxAlloc);
    Together(LiveBlocks(maxAlloc, free), Elements(free));
  }

  lemma Together(a: set<int>, b: set<int>)
    requires a !! b
    ensures |a + b| == |a| + |b|
  {
  }

  lemma LiveOrListed(maxAlloc: int, free: seq<int>)
    requires forall i :: 0 <= i < |free| ==> INODE_BLOCK_COUNT < free[i] < maxAlloc
    ensures LiveBlocks(maxAlloc, free) + Elements(free) == Range(INODE_BLOCK_COUNT + 1, maxAlloc)
    ensures LiveBlocks(maxAlloc, free) !! Elements(free)
  {
    hide Range;
    var live, listed := LiveBlocks(maxAlloc, free), Elements(free);
    forall b
      ensures b in live + listed <==> b in Range(INODE_BLOCK_COUNT + 1, maxAlloc)
    {
    }
  }

  // ----- the list and the blocks it is written in -----

  lemma Next(img: Image, head: int, free: seq<int>, i: nat)
    requires Linked(img, head, free) && i < |free|
    ensures Word(img[free[i]], 0) == if i + 1 < |free| then free[i + 1] else 0
    ensures forall j :: 1 <= j < N ==> Word(img[free[i]], j) == 0
  {
    LinkBlockWords(Head(free[i + 1..]));
  }

  lemma LinkedTail(img: Image, head: int, f: seq<int>)
    requires Linked(img, head, f) && f != []
    ensures Linked(img, Head(f[1..]), f[1..])
  {
    forall i | 0 <= i < |f[1..]|
      ensures img[f[1..][i]] == LinkBlock(Head(f[1..][i + 1..]))
    {
      assert f[1..][i] == f[i + 1];
      assert f[1..][i + 1..] == f[i + 2..];
      assert img[f[i + 1]] == LinkBlock(Head(f[(i + 1) + 1..]));
    }
  }

  /** No list but one starts at a given head: the list cannot run into a cycle. */
  lemma {:induction false} LinkedUnique(img: Image, head: int, f: seq<int>, g: seq<int>)
    requires Linked(img, head, f) && Linked(img, head, g)
    ensures f == g
    decreases |f|
  {
    if f != [] && g != [] {
      Next(img, head, f, 0);
      Next(img, head, g, 0);
      LinkedTail(img, head, f);
      LinkedTail(img, head, g);
      LinkedUnique(img, Head(f[1..]), f[1..], g[1..]);
      assert f == [f[0]] + f[1..] && g == [g[0]] + g[1..];
    }
  }

  lemma LinkedPush(img: Image, head: int, free: seq<int>, b: int)
    requires Linked(img, head, free) && InData(b) && b !in free
    ensures Linked(img[b := LinkBlock(head)], b, [b] + free)
  {
    var img', free' := img[b := LinkBlock(head)], [b] + free;
    forall i | 0 <= i < |free'|
      ensures img'[free'[i]] == LinkBlock(Head(free'[i + 1..]))
    {
      if i == 0 {
        assert free'[1..] == free;
      } else {
        assert free'[i] == free[i - 1] && free'[i + 1..] == free[(i - 1) + 1..];
      }
    }
  }

  /** Writing a block that is not listed leaves the list alone. */
  lemma LinkedFrame(img: Image, head: int, free: seq<int>, b: int, block: Block)
    requires Linked(img, head, free) && 0 <= b < BLOCK_COUNT && b !in free
    ensures Linked(img[b := block], head, free)
  {
  }

  // ----- the four moves of the allocator -----

  lemma Bump(img: Image, maxAlloc: int, head: int, free: seq<int>)
    requires Allocator(img, maxAlloc, head, free) && maxAlloc < NUM_OF_DATA_BLOCKS
    ensures Allocator(img[maxAlloc := ZeroBlock()], maxAlloc + 1, head, free)
    ensures InData(maxAlloc) && maxAlloc !in LiveBlocks(maxAlloc, free)
    ensures LiveBlocks(maxAlloc + 1, free) == LiveBlocks(maxAlloc, free) + {maxAlloc}
  {
    LinkedFrame(img, head, free, maxAlloc, ZeroBlock());
  }

  lemma Pop(img: Image, maxAlloc: int, head: int, free: seq<int>)
    requires Allocator(img, maxAlloc, head, free) && free != []
    ensures Allocator(img, maxAlloc, Head(free[1..]), free[1..])
    ensures InData(head) && head !in LiveBlocks(maxAlloc, free)
    ensures LiveBlocks(maxAlloc, free[1..]) == LiveBlocks(maxAlloc, free) + {head}
  {
    LinkedTail(img, head, free);
    assert free == [head] + free[1..];
  }

  lemma Lower(img: Image, maxAlloc: int, head: int, free: seq<int>)
    requires Allocator(img, maxAlloc, head, free) && maxAlloc - 1 in LiveBlocks(maxAlloc, free)
    ensures Allocator(img, maxAlloc - 1, head, free)
    ensures LiveBlocks(maxAlloc - 1, free) == LiveBlocks(maxAlloc, free) - {maxAlloc - 1}
  {
  }

  lemma Push(img: Image, maxAlloc: int, head: int, free: seq<int>, b: int)
    requires Allocator(img, maxAlloc, head, free) && b in LiveBlocks(maxAlloc, free)
    ensures Allocator(img[b := LinkBlock(head)], maxAlloc, b, [b] + free)
    ensures LiveBlocks(maxAlloc, [b] + free) == LiveBlocks(maxAlloc, free) - {b}
  {
    LinkedPush(img, head, free, b);
  }
}
