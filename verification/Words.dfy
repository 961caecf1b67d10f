/** Sixty-four bit little-endian words inside byte blocks. */
module Words {
  import opened Geometry

  const TWO_63 := 0x8000_0000_0000_0000
  const TWO_64 := 0x1_0000_0000_0000_0000

  predicate IsInt64(v: int) {
    -TWO_63 <= v < TWO_63
  }

  function Power256(n: nat): nat {
    if n == 0 then 1 else 256 * Power256(n - 1)
  }

  function Encode(v: nat, n: nat): (s: seq<byte>)
    ensures |s| == n
  {
    if n == 0 then [] else [v % 256] + Encode(v / 256, n - 1)
  }

  function Decode(s: seq<byte>): nat {
    if s == [] then 0 else s[0] + 256 * Decode(s[1..])
  }

  lemma {:induction false} DecodeEncode(v: nat, n: nat)
    requires v < Power256(n)
    ensures Decode(Encode(v, n)) == v
  {
    if n > 0 {
      DecodeEncode(v / 256, n - 1);
      assert Encode(v, n)[1..] == Encode(v / 256, n - 1);
    }
  }

  lemma LowByte(b: byte, high: nat)
    ensures (b as int + 256 * high) % 256 == b as int && (b as int + 256 * high) / 256 == high
  {
  }

  lemma {:induction false} EncodeDecode(s: seq<byte>)
    ensures Decode(s) < Power256(|s|)
    ensures Encode(Decode(s), |s|) == s
  {
    if s != [] {
      EncodeDecode(s[1..]);
      LowByte(s[0], Decode(s[1..]));
      assert [s[0]] + s[1..] == s;
    }
  }

  lemma {:induction false} DecodeZeros(s: seq<byte>)
    requires forall i :: 0 <= i < |s| ==> s[i] == 0
    ensures Decode(s) == 0
  {
    if s != [] {
      DecodeZeros(s[1..]);
    }
  }

  lemma {:induction false} OnlyZeros(s: seq<byte>)
    requires Decode(s) == 0
    ensures forall i :: 0 <= i < |s| ==> s[i] == 0
  {
    if s != [] {
      OnlyZeros(s[1..]);
      assert s == [s[0]] + s[1..];
    }
  }

  /** The eight bytes of a signed word. */
  function Bytes(v: int): (s: seq<byte>)
    requires IsInt64(v)
    ensures |s| == 8
  {
    Encode(if v < 0 then v + TWO_64 else v, 8)
  }

  /** The signed word held by eight bytes. */
  function Value(s: seq<byte>): (v: int) {
    var u := Decode(s);
    if u < TWO_63 then u else u - TWO_64
  }

  lemma Power256Of8()
    ensures Power256(8) == TWO_64
  {
    assert Power256(4) == 0x1_0000_0000;
  }

  lemma ValueBytes(v: int)
    requires IsInt64(v)
    ensures Value(Bytes(v)) == v
  {
    Power256Of8();
    DecodeEncode(if v < 0 then v + TWO_64 else v, 8);
  }

  lemma ZeroValue(s: seq<byte>)
    requires |s| == 8 && Value(s) == 0
    ensures forall i :: 0 <= i < 8 ==> s[i] == 0
  {
    Power256Of8();
    EncodeDecode(s);
    OnlyZeros(s);
  }

  /** The word at an arbitrary byte offset. */
  function WordAt(s: seq<byte>, offset: int): int
    requires 0 <= offset <= |s| - 8
  {
    Value(s[offset..offset + 8])
  }

  /** The j-th aligned word of a block, the array view `((sType*) block)[j]`. */
  function Word(block: Block, j: int): int
    requires 0 <= j < N
  {
    WordAt(block, 8 * j)
  }

  /** Overwriting bytes in the middle, as `memcpy` into a buffer does. */
  function Splice(s: seq<byte>, offset: int, bytes: seq<byte>): (r: seq<byte>)
    requires 0 <= offset <= |s| - |bytes|
    ensures |r| == |s|
  {
    s[..offset] + bytes + s[offset + |bytes|..]
  }

  function PutWord(block: Block, j: int, v: int): Block
    requires 0 <= j < N && IsInt64(v)
  {
    Splice(block, 8 * j, Bytes(v))
  }

  lemma PutWordAt(block: Block, j: int, v: int, k: int)
    requires 0 <= j < N && 0 <= k < N && IsInt64(v)
    ensures Word(PutWord(block, j, v), k) == if k == j then v else Word(block, k)
  {
    var r := PutWord(block, j, v);
    if k == j {
      assert r[8 * k..8 * k + 8] == Bytes(v);
      ValueBytes(v);
    } else {
      assert r[8 * k..8 * k + 8] == block[8 * k..8 * k + 8];
    }
  }

  lemma PutWordAll(block: Block, j: int, v: int)
    requires 0 <= j < N && IsInt64(v)
    ensures forall k :: 0 <= k < N ==> Word(PutWord(block, j, v), k) == if k == j then v else Word(block, k)
  {
    forall k | 0 <= k < N
      ensures Word(PutWord(block, j, v), k) == if k == j then v else Word(block, k)
    {
      PutWordAt(block, j, v, k);
    }
  }

  lemma ZeroBlockWord(k: int)
    requires 0 <= k < N
    ensures Word(ZeroBlock(), k) == 0
  {
    DecodeZeros(ZeroBlock()[8 * k..8 * k + 8]);
  }

  lemma ZeroBlockWords()
    ensures forall k :: 0 <= k < N ==> Word(ZeroBlock(), k) == 0
  {
    forall k | 0 <= k < N
      ensures Word(ZeroBlock(), k) == 0
    {
      ZeroBlockWord(k);
    }
  }
}
