/** The bytes of a file: its data blocks laid end to end, up to its size. */
module FileContents {
  import opened Geometry
  import opened Words
  import opened FreeList
  import opened BlockMaps

  /** The data blocks laid end to end. */
  ghost function Flat(img: Image, data: seq<int>): (s: seq<byte>)
    ensures |s| == |data| * BLOCK_SIZE
  {
    if data == [] then []
    else
      var b := data[|data| - 1];
      Flat(img, data[..|data| - 1]) + if InData(b) then img[b] else ZeroBlock()
  }

  ghost function Contents(img: Image, m: BlockMap, size: int): seq<byte>
    requires 0 <= size <= |m.Data()| * BLOCK_SIZE
  {
    Flat(img, m.Data())[..size]
  }

  lemma {:induction false} FlatSame(img: Image, img': Image, data: seq<int>)
    requires forall j :: 0 <= j < |data| && InData(data[j]) ==> img'[data[j]] == img[data[j]]
    ensures Flat(img', data) == Flat(img, data)
    decreases |data|
  {
    if data != [] {
      FlatSame(img, img', data[..|data| - 1]);
    }
  }

  lemma FlatAppend(img: Image, data: seq<int>, b: int)
    requires InData(b)
    ensures Flat(img, data + [b]) == Flat(img, data) + img[b]
  {
    assert (data + [b])[..|data|] == data;
  }

  lemma {:induction false} FlatSplit(img: Image, data: seq<int>, k: int)
    requires 0 <= k <= |data|
    ensures Flat(img, data[..k]) == Flat(img, data)[..k * BLOCK_SIZE]
    decreases |data|
  {
    var n := |data| - 1;
    if k == |data| {
      assert data[..k] == data;
    } else {
      FlatSplit(img, data[..n], k);
      assert data[..n][..k] == data[..k];
    }
  }

  /** Block k of the file is at its place in the bytes. */
  lemma FlatAt(img: Image, data: seq<int>, k: int)
    requires 0 <= k < |data| && InData(data[k])
    ensures Flat(img, data)[k * BLOCK_SIZE..(k + 1) * BLOCK_SIZE] == img[data[k]]
  {
    FlatSplit(img, data, k + 1);
    var upto := data[..k + 1];
    assert upto[..k] == data[..k] && upto[k] == data[k];
    assert Flat(img, upto) == Flat(img, data[..k]) + img[data[k]];
    var all := Flat(img, data);
    assert all[k * BLOCK_SIZE..(k + 1) * BLOCK_SIZE] == all[..(k + 1) * BLOCK_SIZE][k * BLOCK_SIZE..];
  }

  function At(img: Image, b: int): Block {
    if InData(b) then img[b] else ZeroBlock()
  }

  lemma FlatStep(img: Image, data: seq<int>)
    requires data != []
    ensures Flat(img, data) == Flat(img, data[..|data| - 1]) + At(img, data[|data| - 1])
  {
  }

  lemma Inside(a: seq<byte>, b: seq<byte>, at: int, block: Block)
    requires 0 <= at && at + BLOCK_SIZE <= |a|
    ensures (a[..at] + block + a[at + BLOCK_SIZE..]) + b == (a + b)[..at] + block + (a + b)[at + BLOCK_SIZE..]
  {
  }

  lemma AtEnd(a: seq<byte>, b: Block, block: Block)
    ensures a + block == (a + b)[..|a|] + block + (a + b)[|a| + BLOCK_SIZE..]
  {
  }

  /** Rewriting block k changes just its bytes. */
  lemma {:induction false} FlatFilled(img: Image, data: seq<int>, k: int, block: Block)
    requires 0 <= k < |data| && InData(data[k]) && NoDuplicates(data)
    ensures var f, at := Flat(img, data), k * BLOCK_SIZE;
      Flat(img[data[k] := block], data) == f[..at] + block + f[at + BLOCK_SIZE..]
    decreases |data|
  {
    var n, img' := |data| - 1, img[data[k] := block];
    FlatStep(img, data);
    FlatStep(img', data);
    if k == n {
      FlatSame(img, img', data[..n]);
      AtEnd(Flat(img, data[..n]), img[data[k]], block);
    } else {
      assert data[..n][k] == data[k];
      FlatFilled(img, data[..n], k, block);
      hide Flat;
      Inside(Flat(img, data[..n]), At(img, data[n]), k * BLOCK_SIZE, block);
    }
  }

  // ----- writing, piece by piece -----

  /** From a position on the blocks hold what they held, and zeros where there was no block. */
  ghost predicate RestKept(before: seq<byte>, flat: seq<byte>, from: int) {
    0 <= from && forall i :: from <= i < |flat| ==> flat[i] == if i < |before| then before[i] else 0
  }

  /** After w bytes: the old bytes before the offset, the first w of the buffer, and then the old bytes again. */
  ghost predicate WrittenUpTo(flat: seq<byte>, before: seq<byte>, offset: int, buff: seq<byte>, w: int) {
    && 0 <= offset <= |before| <= |flat| && 0 <= w <= |buff| && offset + w <= |flat|
    && flat[..offset + w] == before[..offset] + buff[..w] && RestKept(before, flat, offset + w)
  }

  lemma MoreWritten(f: seq<byte>, f': seq<byte>, before: seq<byte>, offset: int, buff: seq<byte>, w: int, t: int)
    requires WrittenUpTo(f, before, offset, buff, w) && 0 <= t && w + t <= |buff| && offset + w + t <= |f'|
    requires f'[..offset + w + t] == f[..offset + w] + buff[w..w + t] && |f| <= |f'|
    requires RestKept(f, f', offset + w + t)
    ensures WrittenUpTo(f', before, offset, buff, w + t)
  {
    assert buff[..w + t] == buff[..w] + buff[w..w + t];
    assert (before[..offset] + buff[..w]) + buff[w..w + t] == before[..offset] + buff[..w + t];
  }

  /** A piece of the buffer goes into an existing block right behind what is written. */
  lemma PieceFilled(img: Image, data: seq<int>, k: int, at: int, before: seq<byte>, offset: int, buff: seq<byte>,
                    w: int, t: int)
    requires 0 <= k < |data| && InData(data[k]) && NoDuplicates(data)
    requires WrittenUpTo(Flat(img, data), before, offset, buff, w)
    requires 0 <= at && 0 <= t && at + t <= BLOCK_SIZE && w + t <= |buff| && k * BLOCK_SIZE + at == offset + w
    ensures var img' := img[data[k] := Splice(img[data[k]], at, buff[w..w + t])];
      WrittenUpTo(Flat(img', data), before, offset, buff, w + t)
  {
    hide Splice, Flat, NoDuplicates;
    var f, piece := Flat(img, data), buff[w..w + t];
    var block := Splice(img[data[k]], at, piece);
    var f' := Flat(img[data[k] := block], data);
    FlatAt(img, data, k);
    FlatFilled(img, data, k, block);
    SplicedPrefix(f, img[data[k]], k * BLOCK_SIZE, at, piece);
    SplicedRest(f, img[data[k]], k * BLOCK_SIZE, at, piece);
    MoreWritten(f, f', before, offset, buff, w, t);
  }

  lemma SplicedPrefix(f: seq<byte>, block: seq<byte>, start: int, at: int, piece: seq<byte>)
    requires 0 <= start && start + |block| <= |f| && f[start..start + |block|] == block
    requires 0 <= at && at + |piece| <= |block|
    ensures (f[..start] + Splice(block, at, piece) + f[start + |block|..])[..start + at + |piece|]
      == f[..start + at] + piece
  {
    assert forall i :: 0 <= i < at ==> f[start + i] == block[i];
  }

  lemma SplicedRest(f: seq<byte>, block: seq<byte>, start: int, at: int, piece: seq<byte>)
    requires 0 <= start && start + |block| <= |f| && f[start..start + |block|] == block
    requires 0 <= at && at + |piece| <= |block|
    ensures var f' := f[..start] + Splice(block, at, piece) + f[start + |block|..];
      |f'| == |f| && RestKept(f, f', start + at + |piece|)
  {
    assert forall i :: at + |piece| <= i < |block| ==> f[start + i] == block[i];
  }

  // ----- writing behind the last block -----

  /**
   * `pre` goes on where `before` ends: with skipped blocks that are zero but perhaps for their first word, and with
   * zeros from where the offset's own block begins.
   */
  ghost predicate Skipped(before: seq<byte>, pre: seq<byte>, offset: int) {
    && before <= pre
    && forall j :: |before| <= j < |pre| && (8 <= j % BLOCK_SIZE || offset / BLOCK_SIZE * BLOCK_SIZE <= j) ==>
        pre[j] == 0
  }

  /** How far a write has come; as long as it skips blocks, nothing of the buffer is written. */
  ghost predicate Progress(flat: seq<byte>, before: seq<byte>, pre: seq<byte>, offset: int, buff: seq<byte>, w: int) {
    && 0 <= offset && Skipped(before, pre, offset)
    && (if offset <= |before| then pre == before else |pre| <= offset)
    && if |flat| < offset then w == 0 && pre == flat else WrittenUpTo(flat, pre, offset, buff, w)
  }

  lemma ProgressStarts(before: seq<byte>, offset: int, buff: seq<byte>)
    requires 0 <= offset
    ensures Progress(before, before, before, offset, buff, 0)
  {
  }

  /** A block that lies before the offset is appended and not written. */
  lemma BlockSkipped(flat: seq<byte>, before: seq<byte>, pre: seq<byte>, offset: int, buff: seq<byte>, block: Block)
    requires Progress(flat, before, pre, offset, buff, 0)
    requires |flat| % BLOCK_SIZE == 0 && |flat| + BLOCK_SIZE <= offset && |before| <= |flat|
    requires forall i :: 8 <= i < BLOCK_SIZE ==> block[i] == 0
    ensures Progress(flat + block, before, pre + block, offset, buff, 0)
  {
    var pre' := pre + block;
    forall j | |before| <= j < |pre'| && (8 <= j % BLOCK_SIZE || offset / BLOCK_SIZE * BLOCK_SIZE <= j)
      ensures pre'[j] == 0
    {
      if j >= |pre| {
        InBlock(|pre|, j);
      }
    }
    assert pre'[..|before|] == pre[..|before|];
    if |flat| + BLOCK_SIZE == offset {
      assert buff[..0] == [];
      assert (flat + block)[..offset + 0] == pre'[..offset];
    }
  }

  lemma InBlock(start: int, j: int)
    requires 0 <= start && start % BLOCK_SIZE == 0 && start <= j < start + BLOCK_SIZE
    ensures j % BLOCK_SIZE == j - start
  {
  }

  /** A piece of the buffer goes into a new, otherwise zeroed block behind the last one. */
  lemma PieceAppended(img: Image, data: seq<int>, b: int, before: seq<byte>, pre: seq<byte>, offset: int,
                      buff: seq<byte>, w: int, at: int, t: int)
    requires InData(b) && Progress(Flat(img, data), before, pre, offset, buff, w) && |before| <= |data| * BLOCK_SIZE
    requires 0 <= at && 0 <= w && 0 <= t && at + t <= BLOCK_SIZE && w + t <= |buff|
    requires |data| * BLOCK_SIZE + at == offset + w && at < BLOCK_SIZE && (at > 0 ==> w == 0)
    requires img[b] == Splice(ZeroBlock(), at, buff[w..w + t])
    ensures Progress(Flat(img, data + [b]), before, pre + Zeros(at), offset, buff, w + t)
  {
    hide Splice, Flat, Progress, Zeros;
    FlatAppend(img, data, b);
    PieceBehind(Flat(img, data), img[b], before, pre, offset, buff, w, at, t);
  }

  lemma PieceBehind(f: seq<byte>, block: Block, before: seq<byte>, pre: seq<byte>, offset: int, buff: seq<byte>,
                    w: int, at: int, t: int)
    requires Progress(f, before, pre, offset, buff, w) && |before| <= |f| && |f| % BLOCK_SIZE == 0
    requires 0 <= at < BLOCK_SIZE && 0 <= w && 0 <= t && at + t <= BLOCK_SIZE && w + t <= |buff|
    requires |f| + at == offset + w && (at > 0 ==> w == 0)
    requires block == Splice(ZeroBlock(), at, buff[w..w + t])
    ensures Progress(f + block, before, pre + Zeros(at), offset, buff, w + t)
  {
    hide Splice, Progress, Zeros;
    var piece := buff[w..w + t];
    PadStarts(f, before, pre, offset, buff, w, at);
    SplicedStart(at, piece);
    AppendedPrefix(f, block, at, piece);
    ZerosBehind(f, at, piece);
    MoreProgress(f + Zeros(at), f + block, before, pre + Zeros(at), offset, buff, w, t);
  }

  /** Up to its piece the new block has zeros. */
  lemma PadStarts(f: seq<byte>, before: seq<byte>, pre: seq<byte>, offset: int, buff: seq<byte>, w: int, at: int)
    requires Progress(f, before, pre, offset, buff, w) && |before| <= |f| && |f| % BLOCK_SIZE == 0
    requires 0 <= w && 0 <= at < BLOCK_SIZE && |f| + at == offset + w && (at > 0 ==> w == 0)
    ensures Progress(f + Zeros(at), before, pre + Zeros(at), offset, buff, w) && |f + Zeros(at)| == offset + w
  {
    if at == 0 {
      assert f + Zeros(at) == f && pre + Zeros(at) == pre;
    } else {
      var pre' := pre + Zeros(at);
      assert pre'[..|before|] == pre[..|before|];
      assert (f + Zeros(at))[..offset + 0] == pre'[..offset] + buff[..0];
    }
  }

  lemma MoreProgress(f: seq<byte>, f': seq<byte>, before: seq<byte>, pre: seq<byte>, offset: int, buff: seq<byte>,
                     w: int, t: int)
    requires Progress(f, before, pre, offset, buff, w) && offset <= |f| && 0 <= w && 0 <= t && w + t <= |buff|
    requires offset + w <= |f| && offset + w + t <= |f'|
    requires f'[..offset + w + t] == f[..offset + w] + buff[w..w + t]
    requires |f| == offset + w && forall i :: offset + w + t <= i < |f'| ==> f'[i] == 0
    ensures Progress(f', before, pre, offset, buff, w + t)
  {
    hide Skipped;
    MoreWritten(f, f', pre, offset, buff, w, t);
  }

  /** Behind its piece the new block has zeros. */
  lemma ZerosBehind(f: seq<byte>, at: int, piece: seq<byte>)
    requires 0 <= at && at + |piece| <= BLOCK_SIZE
    ensures var f' := f + Splice(ZeroBlock(), at, piece);
      forall i :: |f| + at + |piece| <= i < |f'| ==> f'[i] == 0
  {
  }

  lemma AppendedPrefix(f: seq<byte>, block: Block, at: int, piece: seq<byte>)
    requires 0 <= at && at + |piece| <= BLOCK_SIZE && block[..at + |piece|] == Zeros(at) + piece
    ensures (f + block)[..|f| + at + |piece|] == (f + Zeros(at))[..|f| + at] + piece
  {
  }

  lemma SplicedStart(at: int, piece: seq<byte>)
    requires 0 <= at && at + |piece| <= BLOCK_SIZE
    ensures Splice(ZeroBlock(), at, piece)[..at + |piece|] == Zeros(at) + piece
  {
  }

  /** What is before the offset in the end. */
  ghost predicate Reached(before: seq<byte>, pre: seq<byte>, offset: int) {
    if 0 <= offset <= |before| then pre == before[..offset] else |pre| == offset && Skipped(before, pre, offset)
  }

  lemma ProgressReached(flat: seq<byte>, before: seq<byte>, pre: seq<byte>, offset: int, buff: seq<byte>, w: int)
    requires Progress(flat, before, pre, offset, buff, w) && offset <= |flat|
    ensures 0 <= w <= |buff| && offset + w <= |flat|
    ensures Reached(before, flat[..offset], offset) && flat[offset..offset + w] == buff[..w]
    ensures flat[..offset + w] == flat[..offset] + buff[..w] && RestKept(before, flat, offset + w)
  {
    assert flat[..offset + w][..offset] == flat[..offset];
    assert flat[..offset + w][offset..] == flat[offset..offset + w];
    if offset > |before| {
      assert pre == pre[..offset];
    }
  }

  // ----- what POSIX asks of a write -----

  /**
   * The buffer over the old bytes at the offset, with zeros before it if it begins past their end, and the rest
   * behind it.
   */
  function Overwritten(before: seq<byte>, offset: int, buff: seq<byte>): seq<byte>
    requires 0 <= offset
  {
    if offset + |buff| < |before| then before[..offset] + buff + before[offset + |buff|..]
    else if offset <= |before| then before[..offset] + buff
    else before + Zeros(offset - |before|) + buff
  }

  /** What is left of the blocks up to the offset, and the buffer: the overwritten bytes or not? */
  lemma CutIsOverwritten(flat: seq<byte>, size: int, offset: int, buff: seq<byte>)
    requires 0 <= size <= |flat| && 0 <= offset <= |flat|
    ensures flat[..offset] + buff == Overwritten(flat[..size], offset, buff) <==>
      size <= offset + |buff| && forall i :: size <= i < offset ==> flat[i] == 0
  {
    var before := flat[..size];
    var left, over := flat[..offset] + buff, Overwritten(before, offset, buff);
    if size <= offset {
      assert left[..offset] == flat[..offset] && over[..offset] == before + Zeros(offset - size);
      assert flat[..offset] == before + flat[size..offset];
      if left == over {
        forall i | size <= i < offset
          ensures flat[i] == 0
        {
          assert left[i] == over[i];
        }
      }
      if forall i :: size <= i < offset ==> flat[i] == 0 {
        assert flat[size..offset] == Zeros(offset - size);
      }
    } else {
      assert before[..offset] == flat[..offset];
      assert |left| == offset + |buff|;
    }
  }

  lemma ReachedIsOverwritten(flat: seq<byte>, size: int, pre: seq<byte>, offset: int, buff: seq<byte>)
    requires 0 <= size <= |flat| && Reached(flat, pre, offset) && 0 <= offset
    ensures |pre| == offset && forall i :: 0 <= i < offset && i < |flat| ==> pre[i] == flat[i]
    ensures pre + buff == Overwritten(flat[..size], offset, buff) <==>
      size <= offset + |buff| && forall i :: size <= i < offset ==> pre[i] == 0
  {
    hide Overwritten;
    if offset <= |flat| {
      CutIsOverwritten(flat, size, offset, buff);
    } else {
      assert pre[..size] == flat[..size] && pre[..offset] == pre;
      CutIsOverwritten(pre, size, offset, buff);
    }
  }

  // ----- cutting a file -----

  function BlocksFor(length: int): int
    requires 0 <= length
  {
    if length == 0 then 0 else (length - 1) / BLOCK_SIZE + 1
  }

  /** Zeroing the last block from the cut on leaves the bytes before it, and zeros. */
  lemma TailZeroed(img: Image, data: seq<int>, length: int)
    requires 0 < length && |data| == BlocksFor(length) && InData(data[|data| - 1]) && NoDuplicates(data)
    ensures var b, at := data[|data| - 1], (length - 1) % BLOCK_SIZE + 1;
      Flat(img[b := Splice(img[b], at, Zeros(BLOCK_SIZE - at))], data)
        == Flat(img, data)[..length] + Zeros(|data| * BLOCK_SIZE - length)
  {
    hide Flat, NoDuplicates, Splice, Zeros;
    var k, b, at := |data| - 1, data[|data| - 1], (length - 1) % BLOCK_SIZE + 1;
    CutAt(length, k);
    FlatAt(img, data, k);
    FlatFilled(img, data, k, Splice(img[b], at, Zeros(BLOCK_SIZE - at)));
    ZeroTail(Flat(img, data), img[b], k * BLOCK_SIZE, at);
  }

  lemma CutAt(length: int, k: int)
    requires 0 < length && k + 1 == BlocksFor(length)
    ensures var at := (length - 1) % BLOCK_SIZE + 1; length == k * BLOCK_SIZE + at && 0 < at <= BLOCK_SIZE
  {
  }

  lemma ZeroTail(f: seq<byte>, block: Block, start: int, at: int)
    requires 0 <= start && |f| == start + BLOCK_SIZE && f[start..start + BLOCK_SIZE] == block && 0 <= at <= BLOCK_SIZE
    ensures f[..start] + Splice(block, at, Zeros(BLOCK_SIZE - at)) + f[start + BLOCK_SIZE..]
      == f[..start + at] + Zeros(BLOCK_SIZE - at)
  {
    assert f[start..start + at] == block[..at] by {
      assert f[start..start + BLOCK_SIZE][..at] == f[start..start + at];
    }
    assert f[..start + at] == f[..start] + f[start..start + at];
    assert Splice(block, at, Zeros(BLOCK_SIZE - at)) == block[..at] + Zeros(BLOCK_SIZE - at);
  }
}
