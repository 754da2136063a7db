/** Bytes and the little-endian integers of `struct.pack` and `struct.unpack_from`. */
module Bytes {

  type Byte = x: int | 0 <= x < 0x100

  const U16_LIMIT := 0x1_0000
  const U32_LIMIT := 0x1_0000_0000
  const U64_LIMIT := 0x1_0000_0000_0000_0000

  predicate FitsByte(v: int) { 0 <= v < 0x100 }
  predicate Fits16(v: int) { 0 <= v < U16_LIMIT }
  predicate Fits32(v: int) { 0 <= v < U32_LIMIT }
  predicate Fits64(v: int) { 0 <= v < U64_LIMIT }

  function Le16(v: int): (s: seq<Byte>)
    requires Fits16(v)
    ensures |s| == 2
  {
    [v % 0x100, v / 0x100]
  }

  function Le32(v: int): (s: seq<Byte>)
    requires Fits32(v)
    ensures |s| == 4
  {
    Le16(v % U16_LIMIT) + Le16(v / U16_LIMIT)
  }

  function Le64(v: int): (s: seq<Byte>)
    requires Fits64(v)
    ensures |s| == 8
  {
    Le32(v % U32_LIMIT) + Le32(v / U32_LIMIT)
  }

  function U16At(data: seq<Byte>, i: nat): (v: nat)
    requires i + 2 <= |data|
    ensures Fits16(v)
  {
    data[i] as int + 0x100 * data[i + 1] as int
  }

  function U32At(data: seq<Byte>, i: nat): (v: nat)
    requires i + 4 <= |data|
    ensures Fits32(v)
  {
    U16At(data, i) + U16_LIMIT * U16At(data, i + 2)
  }

  function U64At(data: seq<Byte>, i: nat): (v: nat)
    requires i + 8 <= |data|
    ensures Fits64(v)
  {
    U32At(data, i) + U32_LIMIT * U32At(data, i + 4)
  }

  /** Reading a packed 16-bit field at the offset where it was laid returns the value. */
  lemma ReadLe16(pre: seq<Byte>, v: int, post: seq<Byte>)
    requires Fits16(v)
    ensures U16At(pre + Le16(v) + post, |pre|) == v
  {
    var data := pre + Le16(v) + post;
    assert data[|pre|] == v % 0x100 && data[|pre| + 1] == v / 0x100;
  }

  lemma ReadLe32(pre: seq<Byte>, v: int, post: seq<Byte>)
    requires Fits32(v)
    ensures U32At(pre + Le32(v) + post, |pre|) == v
  {
    var low, high := Le16(v % U16_LIMIT), Le16(v / U16_LIMIT);
    ReadLe16(pre, v % U16_LIMIT, high + post);
    ReadLe16(pre + low, v / U16_LIMIT, post);
    assert pre + Le32(v) + post == pre + low + (high + post) == (pre + low) + high + post;
  }

  lemma ReadLe64(pre: seq<Byte>, v: int, post: seq<Byte>)
    requires Fits64(v)
    ensures U64At(pre + Le64(v) + post, |pre|) == v
  {
    var low, high := Le32(v % U32_LIMIT), Le32(v / U32_LIMIT);
    ReadLe32(pre, v % U32_LIMIT, high + post);
    ReadLe32(pre + low, v / U32_LIMIT, post);
    assert pre + Le64(v) + post == pre + low + (high + post) == (pre + low) + high + post;
  }

  /** A 16-bit field is packed from what is read, so handles survive re-serialising. */
  lemma PackRead16(data: seq<Byte>, i: nat)
    requires i + 2 <= |data|
    ensures Le16(U16At(data, i)) == data[i..i + 2]
  {
  }

  /** The bytes of a field, lowest first, for records written out byte by byte. */
  function B0(v: int): Byte { v % 0x100 }
  function B1(v: int): Byte { v / 0x100 % 0x100 }
  function B2(v: int): Byte { v / 0x1_0000 % 0x100 }
  function B3(v: int): Byte { v / 0x100_0000 % 0x100 }

  lemma Lanes16(v: int)
    requires Fits16(v)
    ensures B0(v) as int + 0x100 * B1(v) as int == v
  {
  }

  lemma Halves(v: int)
    requires Fits32(v)
    ensures v == v % U16_LIMIT + U16_LIMIT * (v / U16_LIMIT)
    ensures B0(v) == B0(v % U16_LIMIT) && B1(v) == B1(v % U16_LIMIT)
  {
    var low, high := v % U16_LIMIT, v / U16_LIMIT;
    LowLane(low, high);
    SecondLane(low, high);
  }

  lemma LowLane(low: int, high: int)
    requires 0 <= low < U16_LIMIT && 0 <= high
    ensures (low + U16_LIMIT * high) % 0x100 == low % 0x100
  {
    assert low + U16_LIMIT * high == low + 0x100 * (0x100 * high);
  }

  lemma DropMultiple(x: int, high: int)
    requires 0 <= x && 0 <= high
    ensures (x + 0x100 * high) % 0x100 == x % 0x100
  {
  }

  lemma SecondLane(low: int, high: int)
    requires 0 <= low < U16_LIMIT && 0 <= high
    ensures (low + U16_LIMIT * high) / 0x100 % 0x100 == low / 0x100 % 0x100
  {
    assert (low + U16_LIMIT * high) / 0x100 == low / 0x100 + 0x100 * high by {
      assert low + U16_LIMIT * high == low + 0x100 * (0x100 * high);
    }
    DropMultiple(low / 0x100, high);
  }

  lemma UpperHalf(v: int)
    requires Fits32(v)
    ensures B2(v) == B0(v / U16_LIMIT) && B3(v) == B1(v / U16_LIMIT) && Fits16(v / U16_LIMIT)
  {
    assert v / 0x100_0000 == v / 0x1_0000 / 0x100;
  }

  lemma Lanes32(v: int)
    requires Fits32(v)
    ensures B0(v) as int + 0x100 * B1(v) as int + U16_LIMIT * (B2(v) as int + 0x100 * B3(v) as int) == v
  {
    hide B0, B1, B2, B3;
    Halves(v);
    UpperHalf(v);
    Lanes16(v % U16_LIMIT);
    Lanes16(v / U16_LIMIT);
  }
}
