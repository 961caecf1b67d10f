/** Directory blocks: a used-bytes header, then packed variable-length records, then zeros (src/inode.cpp:483-645). */
module DirectoryBlocks {
  import opened Geometry
  import opened Words

  const RECORD_LENGTH := 8       // the record's length, then
  const RECORD_FIXED_LEN := 16   // its inode number, before the name
  const FILE_NAME_MAX_LENGTH := 255

  datatype Entry = Entry(inum: int, name: seq<byte>)

  /** A C string of at most FILE_NAME_MAX_LENGTH characters. */
  predicate NameOk(name: seq<byte>) {
    |name| <= FILE_NAME_MAX_LENGTH && 0 !in name
  }

  predicate EntryOk(e: Entry) {
    NameOk(e.name) && IsInt64(e.inum)
  }

  function RecordLength(name: seq<byte>): int {
    RECORD_FIXED_LEN + |name| + 1
  }

  function RecordBytes(e: Entry): (s: seq<byte>)
    requires EntryOk(e)
    ensures |s| == RecordLength(e.name)
  {
    Bytes(RecordLength(e.name)) + Bytes(e.inum) + e.name + [0]
  }

  predicate EntriesOk(es: seq<Entry>) {
    forall i :: 0 <= i < |es| ==> EntryOk(es[i])
  }

  function Records(es: seq<Entry>): seq<byte>
    requires EntriesOk(es)
  {
    if es == [] then [] else Records(es[..|es| - 1]) + RecordBytes(es[|es| - 1])
  }

  /** Records that leave the block at least as much slack as adding one insists on. */
  predicate Fits(es: seq<Entry>) {
    EntriesOk(es) && 8 + |Records(es)| < BLOCK_SIZE - 8
  }

  function DirectoryBlock(es: seq<Entry>): Block
    requires Fits(es)
  {
    Bytes(|Records(es)|) + Records(es) + Zeros(BLOCK_SIZE - 8 - |Records(es)|)
  }

  /** Where the i-th record starts. */
  function Start(es: seq<Entry>, i: nat): int
    requires EntriesOk(es) && i <= |es|
  {
    8 + |Records(es[..i])|
  }

  lemma {:induction false} RecordsConcat(a: seq<Entry>, b: seq<Entry>)
    requires EntriesOk(a) && EntriesOk(b)
    ensures Records(a + b) == Records(a) + Records(b)
    decreases |b|
  {
    hide RecordBytes, EntryOk, Records;
    if b == [] {
      assert a + b == a;
      NoRecords();
    } else {
      var n := |b| - 1;
      assert (a + b)[..|a + b| - 1] == a + b[..n] && (a + b)[|a + b| - 1] == b[n];
      RecordsConcat(a, b[..n]);
      RecordsLast(a + b);
      RecordsLast(b);
    }
  }

  lemma NoRecords()
    ensures Records([]) == []
  {
  }

  lemma RecordsLast(es: seq<Entry>)
    requires EntriesOk(es) && es != []
    ensures Records(es) == Records(es[..|es| - 1]) + RecordBytes(es[|es| - 1])
  {
  }

  /** The records of a block, split at the i-th. */
  lemma SplitAt(es: seq<Entry>, i: nat)
    requires EntriesOk(es) && i < |es|
    ensures Records(es) == Records(es[..i]) + RecordBytes(es[i]) + Records(es[i + 1..])
    ensures Start(es, i + 1) == Start(es, i) + RecordLength(es[i].name) <= 8 + |Records(es)|
    ensures Records(es[..i + 1]) == Records(es[..i]) + RecordBytes(es[i])
  {
    hide RecordBytes, EntryOk;
    assert es == es[..i + 1] + es[i + 1..];
    assert es[..i + 1][..i] == es[..i];
    RecordsConcat(es[..i + 1], es[i + 1..]);
  }

  lemma InMiddle(a: seq<byte>, b: seq<byte>, c: seq<byte>)
    ensures (a + b + c)[|a|..|a| + |b|] == b
  {
  }

  lemma RecordSlice(es: seq<Entry>, i: nat)
    requires Fits(es) && i < |es|
    ensures 8 <= Start(es, i) && Start(es, i) + RecordLength(es[i].name) <= 8 + |Records(es)| < BLOCK_SIZE - 8
    ensures DirectoryBlock(es)[Start(es, i)..Start(es, i) + RecordLength(es[i].name)] == RecordBytes(es[i])
  {
    hide RecordBytes, EntryOk, Bytes, Records, DirectoryBlock, Zeros;
    SplitAt(es, i);
    BlockIs(es);
    StartIs(es, i);
    MiddleOf(Bytes(|Records(es)|), Records(es[..i]), RecordBytes(es[i]), Records(es[i + 1..]),
             Zeros(BLOCK_SIZE - 8 - |Records(es)|));
  }

  lemma StartIs(es: seq<Entry>, i: nat)
    requires EntriesOk(es) && i <= |es|
    ensures Start(es, i) == 8 + |Records(es[..i])|
  {
  }

  lemma BlockIs(es: seq<Entry>)
    requires Fits(es)
    ensures DirectoryBlock(es) == Bytes(|Records(es)|) + Records(es) + Zeros(BLOCK_SIZE - 8 - |Records(es)|)
  {
  }

  lemma MiddleOf(h: seq<byte>, a: seq<byte>, r: seq<byte>, c: seq<byte>, z: seq<byte>)
    ensures (h + (a + r + c) + z)[|h| + |a|..|h| + |a| + |r|] == r
  {
    assert h + (a + r + c) + z == (h + a) + r + (c + z);
    InMiddle(h + a, r, c + z);
  }

  /** What reading the i-th record finds. */
  lemma RecordAt(es: seq<Entry>, i: nat)
    requires Fits(es) && i < |es|
    ensures 8 <= Start(es, i) && Start(es, i) + RecordLength(es[i].name) <= 8 + |Records(es)| < BLOCK_SIZE - 8
    ensures WordAt(DirectoryBlock(es), Start(es, i)) == RecordLength(es[i].name)
    ensures WordAt(DirectoryBlock(es), Start(es, i) + RECORD_LENGTH) == es[i].inum
    ensures var name := Start(es, i) + RECORD_FIXED_LEN;
      DirectoryBlock(es)[name..name + |es[i].name|] == es[i].name
  {
    hide RecordBytes, Records, DirectoryBlock, Bytes, Value, Start;
    RecordSlice(es, i);
    var e, block, at := es[i], DirectoryBlock(es), Start(es, i);
    var end := at + RecordLength(e.name);
    RecordFields(e);
    SliceOfSlice(block, at, end, 0, 8);
    SliceOfSlice(block, at, end, 8, 16);
    SliceOfSlice(block, at, end, 16, 16 + |e.name|);
    ValueBytes(RecordLength(e.name));
    ValueBytes(e.inum);
  }

  lemma RecordFields(e: Entry)
    requires EntryOk(e)
    ensures var r := RecordBytes(e);
      r[0..8] == Bytes(RecordLength(e.name)) && r[8..16] == Bytes(e.inum) && r[16..16 + |e.name|] == e.name
  {
  }

  lemma SliceOfSlice(s: seq<byte>, a: int, b: int, i: int, j: int)
    requires 0 <= a <= b <= |s| && 0 <= i <= j <= b - a
    ensures s[a..b][i..j] == s[a + i..a + j]
  {
    forall k | 0 <= k < j - i
      ensures s[a..b][i..j][k] == s[a + i..a + j][k]
    {
      assert s[a..b][i..j][k] == s[a..b][i + k];
    }
  }

  lemma Header(es: seq<Entry>)
    requires Fits(es)
    ensures Word(DirectoryBlock(es), 0) == |Records(es)|
  {
    var block := DirectoryBlock(es);
    assert block[0..8] == Bytes(|Records(es)|);
    ValueBytes(|Records(es)|);
  }

  /** What reading past the last record finds. */
  lemma AtTheEnd(es: seq<Entry>)
    requires Fits(es)
    ensures Start(es, |es|) == 8 + |Records(es)|
    ensures Start(es, |es|) <= BLOCK_SIZE - 8 && WordAt(DirectoryBlock(es), Start(es, |es|)) == 0
    ensures forall p :: Start(es, |es|) <= p < BLOCK_SIZE ==> DirectoryBlock(es)[p] == 0
  {
    assert es[..|es|] == es;
    var block, at := DirectoryBlock(es), Start(es, |es|);
    DecodeZeros(block[at..at + 8]);
  }

  lemma {:induction false} StartsIncrease(es: seq<Entry>, i: nat, j: nat)
    requires EntriesOk(es) && i <= j <= |es|
    ensures Start(es, i) + 17 * (j - i) <= Start(es, j) && 8 <= Start(es, i)
    decreases j
  {
    if i < j {
      StartsIncrease(es, i, j - 1);
      SplitAt(es, j - 1);
    }
  }

  // ----- adding a record -----

  lemma SpliceIn(a: seq<byte>, b: seq<byte>, c: seq<byte>, d: seq<byte>)
    requires |d| == |b|
    ensures Splice(a + b + c, |a|, d) == a + d + c
  {
  }

  lemma ZerosSplit(n: nat, k: nat)
    requires k <= n
    ensures Zeros(n) == Zeros(k) + Zeros(n - k)
  {
  }

  /** Copying three pieces into the zeros behind the records, and a new header over the old one. */
  lemma FourCopies(header: seq<byte>, records: seq<byte>, l: seq<byte>, i: seq<byte>, name: seq<byte>, z8: seq<byte>,
                   zn: seq<byte>, rest: seq<byte>, header': seq<byte>)
    requires |header| == |header'| == |l| == |i| == |z8| == 8 && |zn| == |name|
    ensures var at := 8 + |records|;
      var block := Splice(Splice(header + records + (z8 + z8 + zn + rest), at, l), at + 8, i);
      Splice(Splice(block, 0, header'), at + 16, name) == header' + (records + (l + i + name)) + rest
  {
    hide Splice;
    assert header + records + (z8 + z8 + zn + rest) == (header + records) + z8 + (z8 + zn + rest);
    SpliceIn(header + records, z8, z8 + zn + rest, l);
    assert (header + records) + l + (z8 + zn + rest) == (header + records + l) + z8 + (zn + rest);
    SpliceIn(header + records + l, z8, zn + rest, i);
    assert (header + records + l) + i + (zn + rest) == [] + header + (records + l + i + zn + rest);
    SpliceIn([], header, records + l + i + zn + rest, header');
    assert [] + header' + (records + l + i + zn + rest) == (header' + records + l + i) + zn + rest;
    SpliceIn(header' + records + l + i, zn, rest, name);
    assert (header' + records + l + i) + name + rest == header' + (records + (l + i + name)) + rest;
  }

  /** The copies that write a record behind the last one add up to the block with the record added. */
  lemma RecordWritten(es: seq<Entry>, e: Entry, at: int)
    requires Fits(es) && EntryOk(e) && Fits(es + [e]) && at == 8 + |Records(es)|
    ensures at + RecordLength(e.name) < BLOCK_SIZE - 8
    ensures
      var block := Splice(DirectoryBlock(es), at, Bytes(RecordLength(e.name)));
      var block := Splice(block, at + RECORD_LENGTH, Bytes(e.inum));
      Splice(PutWord(block, 0, |Records(es)| + RecordLength(e.name)), at + RECORD_FIXED_LEN, e.name + [0])
        == DirectoryBlock(es + [e])
  {
    hide NameOk, Bytes, Splice;
    assert (es + [e])[..|es|] == es;
    RecordIs(e);
    var n, records := |e.name| + 1, Records(es);
    var slack := BLOCK_SIZE - 8 - |records|;
    ZerosSplit(slack, 16 + n);
    ZerosSplit(16 + n, 16);
    ZerosSplit(16, 8);
    assert Zeros(slack) == Zeros(8) + Zeros(8) + Zeros(n) + Zeros(slack - 16 - n);
    FourCopies(Bytes(|records|), records, Bytes(RecordLength(e.name)), Bytes(e.inum), e.name + [0],
               Zeros(8), Zeros(n), Zeros(slack - 16 - n), Bytes(|records| + RecordLength(e.name)));
  }

  lemma RecordIs(e: Entry)
    requires EntryOk(e)
    ensures RecordBytes(e) == Bytes(RecordLength(e.name)) + Bytes(e.inum) + (e.name + [0])
  {
  }

  lemma FitsWhen(es: seq<Entry>, e: Entry)
    requires Fits(es) && EntryOk(e)
    ensures Fits(es + [e]) <==> BLOCK_SIZE - (8 + |Records(es)|) - RECORD_FIXED_LEN - 8 > |e.name| + 1
  {
    hide EntryOk;
    assert (es + [e])[..|es|] == es;
  }

  /** Writes the record behind the last one if the block has room for it. */
  method AddRecord(block: Block, e: Entry, ghost es: seq<Entry>) returns (ok: bool, block': Block)
    requires Fits(es) && block == DirectoryBlock(es) && EntryOk(e)
    ensures ok <==> Fits(es + [e])
    ensures block' == if ok then DirectoryBlock(es + [e]) else block
  {
    hide NameOk, Records, DirectoryBlock, Splice, Bytes, Word;
    Header(es);
    FitsWhen(es, e);
    block' := block;
    var fileNameLen := |e.name| + 1;
    var currPos := 8 + Word(block, 0);
    var freeSpace := BLOCK_SIZE - currPos - RECORD_FIXED_LEN - 8;
    if freeSpace > fileNameLen {
      RecordWritten(es, e, currPos);
      var recordLength := RECORD_FIXED_LEN + fileNameLen;
      block' := Splice(block', currPos, Bytes(recordLength));
      block' := Splice(block', currPos + RECORD_LENGTH, Bytes(e.inum));
      block' := PutWord(block', 0, Word(block, 0) + recordLength);
      block' := Splice(block', currPos + RECORD_FIXED_LEN, e.name + [0]);
      return true, block';
    }
    ok := false;
  }

  /** Four pieces laid over zeros, one behind the other. */
  lemma FourPieces(l: seq<byte>, i: seq<byte>, name: seq<byte>)
    requires |l| == 8 && |i| == 8 && 24 + |name| <= BLOCK_SIZE
    ensures Splice(Splice(Splice(Splice(ZeroBlock(), 0, l), 8, l), 16, i), 24, name)
      == l + (l + i + name) + Zeros(BLOCK_SIZE - 24 - |name|)
  {
    hide Splice;
    var n := |name|;
    ZerosSplit(BLOCK_SIZE, 24 + n);
    ZerosSplit(24 + n, 24);
    ZerosSplit(24, 16);
    ZerosSplit(16, 8);
    var z8, zn, rest := Zeros(8), Zeros(n), Zeros(BLOCK_SIZE - 24 - n);
    assert ZeroBlock() == [] + z8 + (z8 + z8 + zn + rest);
    hide Zeros, ZeroBlock;
    SpliceIn([], z8, z8 + z8 + zn + rest, l);
    assert [] + l + (z8 + z8 + zn + rest) == l + z8 + (z8 + zn + rest);
    SpliceIn(l, z8, z8 + zn + rest, l);
    assert l + l + (z8 + zn + rest) == (l + l) + z8 + (zn + rest);
    SpliceIn(l + l, z8, zn + rest, i);
    assert (l + l) + i + (zn + rest) == (l + l + i) + zn + rest;
    SpliceIn(l + l + i, zn, rest, name);
    assert (l + l + i) + name + rest == l + (l + i + name) + rest;
  }

  lemma OneRecord(e: Entry)
    requires EntryOk(e)
    ensures EntriesOk([e]) && Records([e]) == RecordBytes(e)
  {
    hide EntryOk, RecordBytes;
    assert [e][..0] == [] && Records([e]) == [] + RecordBytes(e);
  }

  lemma FirstWritten(e: Entry)
    requires EntryOk(e)
    ensures Fits([e])
    ensures
      var block := Splice(PutWord(ZeroBlock(), 0, RecordLength(e.name)), RECORD_LENGTH, Bytes(RecordLength(e.name)));
      Splice(Splice(block, RECORD_LENGTH * 2, Bytes(e.inum)), RECORD_FIXED_LEN + RECORD_LENGTH, e.name + [0])
        == DirectoryBlock([e])
  {
    hide Bytes, Splice, Records, Zeros, ZeroBlock;
    OneRecord(e);
    var l, i, name := Bytes(RecordLength(e.name)), Bytes(e.inum), e.name + [0];
    FourPieces(l, i, name);
    assert RecordBytes(e) == l + i + name;
  }

  /** A directory block that holds one record. */
  method NewBlock(e: Entry) returns (block: Block)
    requires EntryOk(e)
    ensures Fits([e]) && block == DirectoryBlock([e])
  {
    hide NameOk, DirectoryBlock, Bytes, Splice;
    FirstWritten(e);
    var recordLength := RECORD_FIXED_LEN + (|e.name| + 1);
    block := PutWord(ZeroBlock(), 0, recordLength);
    block := Splice(block, RECORD_LENGTH, Bytes(recordLength));
    block := Splice(block, RECORD_LENGTH * 2, Bytes(e.inum));
    block := Splice(block, RECORD_FIXED_LEN + RECORD_LENGTH, e.name + [0]);
  }

  // ----- removing a record -----

  function Without(es: seq<Entry>, i: nat): seq<Entry>
    requires i < |es|
  {
    es[..i] + es[i + 1..]
  }

  lemma ShiftDown(header: seq<byte>, before: seq<byte>, r: seq<byte>, after: seq<byte>, header': seq<byte>)
    requires |header| == |header'| == 8 && 8 + |before| + |r| + |after| == BLOCK_SIZE
    ensures var block := Splice(header + (before + r + after), 0, header');
      var at := 8 + |before|;
      Splice(Splice(ZeroBlock(), 0, block[..at]), at, block[at + |r|..]) == header' + before + after + Zeros(|r|)
  {
    hide Zeros, ZeroBlock, Splice;
    assert header + (before + r + after) == [] + header + (before + r + after);
    SpliceIn([], header, before + r + after, header');
    var at := 8 + |before|;
    var block := header' + (before + r + after);
    assert [] + header' + (before + r + after) == block;
    assert block[..at] == header' + before && block[at + |r|..] == after;
    OntoZeros(header' + before, after, |r|);
  }

  lemma OntoZeros(a: seq<byte>, b: seq<byte>, n: nat)
    requires |a| + |b| + n == BLOCK_SIZE
    ensures Splice(Splice(ZeroBlock(), 0, a), |a|, b) == a + b + Zeros(n)
  {
    ZerosSplit(BLOCK_SIZE, |a|);
    ZerosSplit(BLOCK_SIZE - |a|, |b|);
    hide Zeros, Splice;
    assert ZeroBlock() == [] + Zeros(|a|) + (Zeros(|b|) + Zeros(n));
    SpliceIn([], Zeros(|a|), Zeros(|b|) + Zeros(n), a);
    assert [] + a + (Zeros(|b|) + Zeros(n)) == a + Zeros(|b|) + Zeros(n);
    SpliceIn(a, Zeros(|b|), Zeros(n), b);
  }

  lemma WithoutFits(es: seq<Entry>, i: nat)
    requires Fits(es) && i < |es|
    ensures Fits(Without(es, i))
    ensures Records(Without(es, i)) == Records(es[..i]) + Records(es[i + 1..])
    ensures |Records(Without(es, i))| == |Records(es)| - RecordLength(es[i].name)
  {
    hide EntryOk, RecordBytes;
    SplitAt(es, i);
    RecordsConcat(es[..i], es[i + 1..]);
  }

  /** A removed record leaves room for one with the same name. */
  lemma Refits(es: seq<Entry>, i: nat, x: int)
    requires Fits(es) && i < |es| && IsInt64(x)
    ensures NameOk(es[i].name) && Fits(Without(es, i) + [Entry(x, es[i].name)])
  {
    assert EntryOk(es[i]);
    WithoutFits(es, i);
    hide Fits, Without;
    FitsWhen(Without(es, i), Entry(x, es[i].name));
    FitsBound(es);
  }

  lemma FitsBound(es: seq<Entry>)
    requires Fits(es)
    ensures 8 + |Records(es)| < BLOCK_SIZE - 8
  {
  }

  /** Everything behind the record moves down over it, and zeros fill the end. */
  lemma RecordRemoved(es: seq<Entry>, i: nat)
    requires Fits(es) && i < |es|
    ensures Fits(Without(es, i))
    ensures var at, length := Start(es, i), RecordLength(es[i].name);
      var block := PutWord(DirectoryBlock(es), 0, |Records(es)| - length);
      8 <= at && at + length <= BLOCK_SIZE - 8
      && Splice(Splice(ZeroBlock(), 0, block[..at]), at, block[at + length..]) == DirectoryBlock(Without(es, i))
  {
    hide EntryOk, RecordBytes, Bytes, Splice, Records, Zeros, ZeroBlock, DirectoryBlock, Without;
    SplitAt(es, i);
    WithoutFits(es, i);
    BlockIs(es);
    BlockIs(Without(es, i));
    var a, r, c := Records(es[..i]), RecordBytes(es[i]), Records(es[i + 1..]);
    var slack := BLOCK_SIZE - 8 - |Records(es)|;
    var header, header' := Bytes(|Records(es)|), Bytes(|Records(es)| - |r|);
    ZerosSplit(slack + |r|, slack);
    ShiftDownWithin(header, a, r, c, Zeros(slack), header');
  }

  lemma ShiftDownWithin(header: seq<byte>, a: seq<byte>, r: seq<byte>, c: seq<byte>, z: seq<byte>, header': seq<byte>)
    requires |header| == |header'| == 8 && 8 + |a| + |r| + |c| + |z| == BLOCK_SIZE
    ensures var block := Splice(header + (a + r + c) + z, 0, header');
      var at := 8 + |a|;
      Splice(Splice(ZeroBlock(), 0, block[..at]), at, block[at + |r|..]) == header' + (a + c) + (z + Zeros(|r|))
  {
    hide Splice, Zeros, ZeroBlock;
    assert header + (a + r + c) + z == header + (a + r + (c + z));
    ShiftDown(header, a, r, c + z, header');
    assert header' + a + (c + z) + Zeros(|r|) == header' + (a + c) + (z + Zeros(|r|));
  }

  method RemoveRecord(block: Block, offset: int, ghost es: seq<Entry>, ghost i: nat) returns (buffer: Block)
    requires Fits(es) && block == DirectoryBlock(es) && i < |es| && offset == Start(es, i)
    ensures Fits(Without(es, i)) && buffer == DirectoryBlock(Without(es, i))
  {
    hide EntryOk, Records, DirectoryBlock, Splice, Bytes, Word, Start, Without;
    Header(es);
    RecordAt(es, i);
    RecordRemoved(es, i);
    var recLen := WordAt(block, offset);
    var header := PutWord(block, 0, Word(block, 0) - recLen);
    buffer := Splice(ZeroBlock(), 0, header[..offset]);
    var nextOffset := offset + recLen;
    if nextOffset < BLOCK_SIZE {
      buffer := Splice(buffer, offset, header[nextOffset..]);
    }
  }

  // ----- finding and listing records -----

  /** The i-th entry is the first one with the name. */
  predicate FirstNamed(es: seq<Entry>, name: seq<byte>, i: nat) {
    i < |es| && es[i].name == name && forall j :: 0 <= j < i ==> es[j].name != name
  }

  lemma InRange(es: seq<Entry>, i: nat)
    requires Fits(es) && i <= |es|
    ensures 8 <= Start(es, i) && i <= Start(es, i) <= BLOCK_SIZE - 9
    ensures i < |es| ==> Start(es, i + 1) == Start(es, i) + RecordLength(es[i].name)
    ensures i < |es| ==> Start(es, i) <= BLOCK_SIZE - RECORD_FIXED_LEN - 9
  {
    StartsIncrease(es, 0, i);
    if i < |es| {
      SplitAt(es, i);
    }
    AtTheEnd(es);
    StartsIncrease(es, i, |es|);
  }

  /** The offset of the first record with the name, or -1. */
  method FindRecord(block: Block, name: seq<byte>, ghost es: seq<Entry>) returns (offset: int, ghost i: nat)
    requires Fits(es) && block == DirectoryBlock(es)
    ensures offset == -1 <==> forall j :: 0 <= j < |es| ==> es[j].name != name
    ensures offset != -1 ==> FirstNamed(es, name, i) && offset == Start(es, i) && offset > 0
    ensures offset != -1 ==> offset + 16 <= BLOCK_SIZE
  {
    hide EntryOk, Records, DirectoryBlock, Value, Start;
    offset, i := -1, 0;
    InRange(es, 0);
    var currPos := 8;
    StartOfFirst(es);
    while currPos <= BLOCK_SIZE - RECORD_FIXED_LEN
      invariant i <= |es| && currPos == Start(es, i)
      invariant forall j :: 0 <= j < i ==> es[j].name != name
      decreases |es| - i
    {
      InRange(es, i);
      var recordLen := WordAt(block, currPos);
      if recordLen == 0 {
        EndOnly(es, i);
        break;
      }
      NotTheEnd(es, i);
      RecordAt(es, i);
      var currFileNameLen := recordLen - RECORD_FIXED_LEN - 1;
      var start := currPos + RECORD_FIXED_LEN;
      if currFileNameLen == |name| && block[start..start + currFileNameLen] == name {
        return currPos, i;
      }
      currPos := currPos + recordLen;
      i := i + 1;
    }
    if i < |es| {
      InRange(es, i);
      EndOnly(es, i);
    }
  }

  lemma StartOfFirst(es: seq<Entry>)
    requires EntriesOk(es)
    ensures Start(es, 0) == 8
  {
  }

  lemma EndOnly(es: seq<Entry>, i: nat)
    requires Fits(es) && i <= |es| && 0 <= Start(es, i) <= BLOCK_SIZE - 8
    requires WordAt(DirectoryBlock(es), Start(es, i)) == 0
    ensures i == |es|
  {
    hide EntryOk, Records, DirectoryBlock, Value, Start;
    if i < |es| {
      RecordAt(es, i);
    }
  }

  lemma NotTheEnd(es: seq<Entry>, i: nat)
    requires Fits(es) && i <= |es| && 0 <= Start(es, i) <= BLOCK_SIZE - 8
    requires WordAt(DirectoryBlock(es), Start(es, i)) != 0
    ensures i < |es|
  {
    hide EntryOk, Records, DirectoryBlock, Value, Start;
    AtTheEnd(es);
  }
}
