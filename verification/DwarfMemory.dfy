/**
 Reading encoded values (DwarfMemory.cpp). Offsets are uint64_t; the memory behind them is a
 fixed partial map from addresses to bytes. A shift by 64 or more has no defined result in
 C++ and is a result of its own here.
 */
module DwarfMemory {
  import opened Basics
  import opened Bits

  type byte = x: nat | x < 256

  type Memory = map<nat, byte>

  /** `next` is the read offset afterwards. */
  datatype Read<+T> = Got(value: T, next: nat) | Missing | BadShift

  // ---------------------------------------------------------------------------
  // Fixed-size reads

  /** `Memory::ReadFully`. */
  function ReadFully(memory: Memory, addr: nat, size: nat): (r: Option<seq<byte>>)
    ensures r.Some? ==> |r.value| == size
    decreases size, memory
  {
    if size == 0 then Some([])
    else if addr !in memory then None
    else
      match ReadFully(memory, addr + 1, size - 1)
      case None => None
      case Some(rest) => Some([memory[addr]] + rest)
  }

  /** `DwarfMemory::ReadBytes`, as a little-endian number. */
  function ReadNumber(memory: Memory, offset: nat, size: nat): Read<nat> {
    match ReadFully(memory, offset, size)
    case None => Missing
    case Some(bytes) => Got(LittleEndian(bytes), (offset + size) % TWO64)
  }

  function LittleEndian(bytes: seq<byte>): nat {
    if bytes == [] then 0 else bytes[0] + 256 * LittleEndian(bytes[1..])
  }

  // ---------------------------------------------------------------------------
  // LEB128, section 7.6 of DWARF 4

  function Pow128(k: nat): (p: nat)
    ensures p > 0
  {
    if k == 0 then 1 else 128 * Pow128(k - 1)
  }

  /** The bytes the loop shared by `ReadULEB128` and `ReadSLEB128` goes through: up to the
      first one without a continuation bit. The eleventh would be shifted by 70. */
  function LebBytes(memory: Memory, offset: nat, k: nat): Read<seq<byte>>
    decreases 10 - k, memory
  {
    if offset !in memory then Missing
    else if k >= 10 then BadShift
    else if memory[offset] < 128 then Got([memory[offset]], (offset + 1) % TWO64)
    else
      match LebBytes(memory, (offset + 1) % TWO64, k + 1)
      case Got(rest, end) => Got([memory[offset]] + rest, end)
      case Missing => Missing
      case BadShift => BadShift
  }

  /** The number whose seven-bit digits the bytes carry, least significant first. */
  function LebSum(bytes: seq<byte>): nat {
    if bytes == [] then 0 else bytes[0] % 128 + 128 * LebSum(bytes[1..])
  }

  function Uleb(memory: Memory, offset: nat): Read<nat> {
    match LebBytes(memory, offset, 0)
    case Got(bytes, end) => Got(LebSum(bytes) % TWO64, end)
    case Missing => Missing
    case BadShift => BadShift
  }

  /** A uint64_t read as an int64_t. */
  function AsInt64(x: nat): int {
    if 2 * x >= TWO64 then x - TWO64 else x
  }

  /** All ones, shifted left by seven times the number of bytes. */
  function SignBits(count: nat): nat
    requires count < 10
  {
    Pow128Values();
    TWO64 - Pow128(count)
  }

  /** Sign extension ors them in. */
  function ExtendSign(value: nat, last: byte, count: nat): Option<int>
    requires value < TWO64
  {
    if last / 64 % 2 == 0 then Some(AsInt64(value))
    else if count >= 10 then None
    else Some(AsInt64(BitOr(value, SignBits(count))))
  }

  function Sleb(memory: Memory, offset: nat): Read<int> {
    match LebBytes(memory, offset, 0)
    case Got(bytes, end) =>
      if bytes == [] then BadShift
      else (match ExtendSign(LebSum(bytes) % TWO64, bytes[|bytes| - 1], |bytes|)
            case Some(v) => Got(v, end)
            case None => BadShift)
    case Missing => Missing
    case BadShift => BadShift
  }

  // ---------------------------------------------------------------------------
  // The standard encoders

  function EncodeUleb(v: nat): (bytes: seq<byte>)
    ensures |bytes| > 0
  {
    if v < 128 then [v] else [128 + v % 128] + EncodeUleb(v / 128)
  }

  function EncodeSleb(v: int): (bytes: seq<byte>)
    ensures |bytes| > 0
    decreases if v < 0 then -v else v
  {
    if -64 <= v < 64 then [v % 128] else [128 + v % 128] + EncodeSleb(v / 128)
  }

  /** The memory holds these bytes from `offset` on. */
  ghost predicate Holds(memory: Memory, offset: nat, bytes: seq<byte>)
    decreases |bytes|, memory
  {
    && offset + |bytes| < TWO64
    && (bytes == [] || (offset in memory && memory[offset] == bytes[0] && Holds(memory, offset + 1, bytes[1..])))
  }

  lemma {:induction false} HoldsParts(memory: Memory, offset: nat, a: seq<byte>, b: seq<byte>)
    requires Holds(memory, offset, a + b)
    ensures Holds(memory, offset, a) && Holds(memory, offset + |a|, b)
    decreases |a|
  {
    if a == [] {
      assert a + b == b;
    } else {
      assert (a + b)[1..] == a[1..] + b;
      HoldsParts(memory, offset + 1, a[1..], b);
    }
  }

  lemma Pow128Values()
    ensures Pow128(1) == 128 && Pow128(2) == 0x4000
    ensures Pow128(3) == 0x20_0000 && Pow128(4) == 0x1000_0000
    ensures Pow128(5) == 0x8_0000_0000 && Pow128(6) == 0x400_0000_0000
    ensures Pow128(7) == 0x2_0000_0000_0000 && Pow128(8) == 0x100_0000_0000_0000
    ensures Pow128(9) == 0x8000_0000_0000_0000 && Pow128(10) == 0x40_0000_0000_0000_0000
  {
    assert Pow128(1) == 128 * Pow128(0);
    assert Pow128(2) == 128 * Pow128(1);
    assert Pow128(3) == 128 * Pow128(2);
    assert Pow128(4) == 128 * Pow128(3);
    assert Pow128(5) == 128 * Pow128(4);
    assert Pow128(6) == 128 * Pow128(5);
    assert Pow128(7) == 128 * Pow128(6);
    assert Pow128(8) == 128 * Pow128(7);
    assert Pow128(9) == 128 * Pow128(8);
    assert Pow128(10) == 128 * Pow128(9);
  }

  // ---------------------------------------------------------------------------
  // Round trips

  /** Every byte but the last has its continuation bit set. */
  ghost predicate Leb(bytes: seq<byte>) {
    && bytes != []
    && bytes[|bytes| - 1] < 128
    && forall i :: 0 <= i < |bytes| - 1 ==> bytes[i] >= 128
  }

  lemma {:induction false} LebBytesFound(memory: Memory, offset: nat, bytes: seq<byte>, k: nat)
    requires Leb(bytes) && Holds(memory, offset, bytes) && k + |bytes| <= 10
    ensures LebBytes(memory, offset, k) == Got(bytes, offset + |bytes|)
    decreases |bytes|
  {
    assert bytes == [bytes[0]] + bytes[1..];
    if |bytes| > 1 {
      LebBytesFound(memory, offset + 1, bytes[1..], k + 1);
    } else {
      assert bytes == [bytes[0]];
    }
  }

  lemma {:induction false} UlebEncoding(v: nat)
    ensures Leb(EncodeUleb(v)) && LebSum(EncodeUleb(v)) == v
  {
    if v >= 128 {
      assert EncodeUleb(v)[1..] == EncodeUleb(v / 128);
      UlebEncoding(v / 128);
    }
  }

  lemma {:induction false} UlebLength(v: nat, n: nat)
    requires n > 0 && v < Pow128(n)
    ensures |EncodeUleb(v)| <= n
    decreases n
  {
    if v >= 128 {
      UlebLength(v / 128, n - 1);
    }
  }

  /** `ReadULEB128` returns any uint64_t from its standard encoding, whatever bytes follow. */
  lemma UlebRoundTrip(memory: Memory, offset: nat, v: nat)
    requires Holds(memory, offset, EncodeUleb(v)) && v < TWO64
    ensures Uleb(memory, offset) == Got(v, offset + |EncodeUleb(v)|)
  {
    Pow128Values();
    UlebLength(v, 10);
    UlebEncoding(v);
    LebBytesFound(memory, offset, EncodeUleb(v), 0);
  }

  lemma {:induction false} SlebEncoding(v: int)
    ensures Leb(EncodeSleb(v))
    ensures EncodeSleb(v)[|EncodeSleb(v)| - 1] / 64 % 2 == 1 <==> v < 0
    ensures LebSum(EncodeSleb(v)) == if v < 0 then v + Pow128(|EncodeSleb(v)|) else v
    decreases if v < 0 then -v else v
  {
    if -64 <= v < 64 {
      assert Pow128(1) == 128;
    } else {
      SlebEncoding(v / 128);
      SlebPrepend(v, EncodeSleb(v / 128));
    }
  }

  /** One more digit in front. */
  lemma SlebPrepend(v: int, rest: seq<byte>)
    requires Leb(rest)
    requires rest[|rest| - 1] / 64 % 2 == 1 <==> v / 128 < 0
    requires LebSum(rest) == if v / 128 < 0 then v / 128 + Pow128(|rest|) else v / 128
    ensures
      var bytes := [128 + v % 128] + rest;
      && Leb(bytes) && (bytes[|bytes| - 1] / 64 % 2 == 1 <==> v < 0)
      && LebSum(bytes) == if v < 0 then v + Pow128(|bytes|) else v
  {
    var bytes := [128 + v % 128] + rest;
    assert bytes[1..] == rest;
    assert Pow128(|bytes|) == 128 * Pow128(|rest|);
    assert v == 128 * (v / 128) + v % 128;
  }

  /** `n` bytes carry a sign bit and 7n - 1 value bits. */
  lemma {:induction false} SlebLength(v: int, n: nat)
    requires n > 0
    ensures |EncodeSleb(v)| <= n <==> -64 * Pow128(n - 1) <= v < 64 * Pow128(n - 1)
    decreases n
  {
    if n > 1 && !(-64 <= v < 64) {
      SlebLength(v / 128, n - 1);
    } else if n > 1 {
      assert Pow128(n - 1) >= 1;
    }
  }

  lemma ExtendSignExactly(v: int)
    requires -0x8000_0000_0000_0000 <= v < 0x8000_0000_0000_0000
    ensures
      var bytes := EncodeSleb(v);
      && |bytes| <= 10
      && ExtendSign(LebSum(bytes) % TWO64, bytes[|bytes| - 1], |bytes|)
         == if v >= -0x4000_0000_0000_0000 then Some(v) else None
  {
    var bytes := EncodeSleb(v);
    SlebLengths(v);
    SlebEncoding(v);
    SignExtended(v, LebSum(bytes), bytes[|bytes| - 1], |bytes|);
  }

  lemma SignExtended(v: int, sum: nat, last: byte, count: nat)
    requires -0x8000_0000_0000_0000 <= v < 0x8000_0000_0000_0000
    requires last / 64 % 2 == 1 <==> v < 0
    requires sum == if v < 0 then v + Pow128(count) else v
    requires v < 0 ==> (count < 10 <==> v >= -0x4000_0000_0000_0000)
    ensures ExtendSign(sum % TWO64, last, count) == if v >= -0x4000_0000_0000_0000 then Some(v) else None
  {
    if v < 0 && count < 10 {
      Pow128Values();
      SignBitsAreAdded(sum, count);
    }
  }

  lemma {:induction false} Pow128IsPow2(count: nat)
    ensures Pow128(count) == Pow2(7 * count)
  {
    if count > 0 {
      Pow128IsPow2(count - 1);
      SevenBits(7 * (count - 1));
    }
  }

  /** The sign bits are a multiple of the weight of the next digit. */
  lemma SignBitsDivide(count: nat) returns (m: nat)
    requires count < 10
    ensures SignBits(count) == m * Pow128(count)
  {
    Pow128Values();
    m := match count
      case 0 => TWO64 - 1
      case 1 => 0x200_0000_0000_0000 - 1
      case 2 => 0x4_0000_0000_0000 - 1
      case 3 => 0x800_0000_0000 - 1
      case 4 => 0x10_0000_0000 - 1
      case 5 => 0x2000_0000 - 1
      case 6 => 0x40_0000 - 1
      case 7 => 0x8000 - 1
      case 8 => 0x100 - 1
      case _ => 1;
  }

  /** A value of `count` digits has no bit in common with the sign bits. */
  lemma SignBitsAreAdded(value: nat, count: nat)
    requires count < 10 && value < Pow128(count)
    ensures BitOr(value, SignBits(count)) == value + TWO64 - Pow128(count)
  {
    var m := SignBitsDivide(count);
    Pow128IsPow2(count);
    OrIsSum(value, m, 7 * count);
  }

  lemma SlebLengths(v: int)
    requires -0x8000_0000_0000_0000 <= v < 0x8000_0000_0000_0000
    ensures |EncodeSleb(v)| <= 10
    ensures |EncodeSleb(v)| <= 9 <==> -0x4000_0000_0000_0000 <= v < 0x4000_0000_0000_0000
  {
    Pow128Values();
    SlebLength(v, 9);
    SlebLength(v, 10);
  }

  /** `ReadSLEB128` returns an int64_t from its standard encoding exactly when the encoding is
      not a ten-byte negative number; for those it shifts by 70. */
  lemma SlebRoundTripExactly(memory: Memory, offset: nat, v: int)
    requires Holds(memory, offset, EncodeSleb(v))
    requires -0x8000_0000_0000_0000 <= v < 0x8000_0000_0000_0000
    ensures Sleb(memory, offset) == if v >= -0x4000_0000_0000_0000
                                    then Got(v, offset + |EncodeSleb(v)|) else BadShift
  {
    ExtendSignExactly(v);
    SlebIsLeb(v);
    SlebOfBytes(memory, offset, EncodeSleb(v), if v >= -0x4000_0000_0000_0000 then Some(v) else None);
  }

  lemma SlebIsLeb(v: int)
    ensures Leb(EncodeSleb(v))
  {
    SlebEncoding(v);
  }

  lemma SlebOfBytes(memory: Memory, offset: nat, bytes: seq<byte>, r: Option<int>)
    requires Leb(bytes) && |bytes| <= 10 && Holds(memory, offset, bytes)
    requires ExtendSign(LebSum(bytes) % TWO64, bytes[|bytes| - 1], |bytes|) == r
    ensures Sleb(memory, offset) == if r.Some? then Got(r.value, offset + |bytes|) else BadShift
  {
    LebBytesFound(memory, offset, bytes, 0);
  }

  // ---------------------------------------------------------------------------
  // The reader itself

  lemma {:induction false} LebSumAppend(bytes: seq<byte>, b: byte)
    ensures LebSum(bytes + [b]) == LebSum(bytes) + (b % 128) * Pow128(|bytes|)
  {
    if bytes == [] {
      assert bytes + [b] == [b];
    } else {
      var rest := bytes[1..];
      assert (bytes + [b])[1..] == rest + [b];
      LebSumAppend(rest, b);
      NextWeight(b % 128, Pow128(|rest|), LebSum(rest));
    }
  }

  lemma NextWeight(digit: int, weight: int, sum: int)
    ensures 128 * (sum + digit * weight) == 128 * sum + digit * (128 * weight)
  {
  }

  lemma {:induction false} LebSumBound(bytes: seq<byte>)
    ensures LebSum(bytes) < Pow128(|bytes|)
  {
    if bytes != [] {
      LebSumBound(bytes[1..]);
    }
  }

  lemma AddModulo(a: int, b: int)
    ensures (a % TWO64 + b) % TWO64 == (a + b) % TWO64 == (a % TWO64 + b % TWO64) % TWO64
  {
  }

  ghost function Prepend(bytes: seq<byte>, r: Read<seq<byte>>): Read<seq<byte>> {
    if r.Got? && bytes != [] then Got(bytes + r.value, r.next) else r
  }

  lemma PrependOne(bytes: seq<byte>, b: byte, r: Read<seq<byte>>)
    ensures Prepend(bytes, Prepend([b], r)) == Prepend(bytes + [b], r)
  {
    if r.Got? {
      assert bytes + ([b] + r.value) == bytes + [b] + r.value;
      assert bytes == [] ==> bytes + [b] == [b];
    }
  }

  class Cursor {
    const memory: Memory
    var curOffset: nat

    constructor (memory: Memory)
      ensures this.memory == memory && curOffset == 0
    {
      this.memory := memory;
      curOffset := 0;
    }

    method ReadByte() returns (b: Option<byte>)
      modifies this
      ensures b == if old(curOffset) in memory then Some(memory[old(curOffset)]) else None
      ensures curOffset == if b.Some? then (old(curOffset) + 1) % TWO64 else old(curOffset)
    {
      if curOffset !in memory {
        return None;
      }
      b := Some(memory[curOffset]);
      curOffset := (curOffset + 1) % TWO64;
    }

    /** The loop both LEB128 readers run: accumulate seven bits per byte at growing shifts. */
    method ReadLeb() returns (r: Read<nat>, last: byte, count: nat, ghost bytes: seq<byte>)
      modifies this
      ensures
        match LebBytes(memory, old(curOffset), 0)
        case Got(all, end) =>
          && bytes == all && bytes != [] && count == |bytes| && last == bytes[|bytes| - 1]
          && r == Got(LebSum(bytes) % TWO64, end) && curOffset == end
        case Missing => r.Missing?
        case BadShift => r.BadShift?
    {
      var value := 0;
      count := 0;
      last := 128;
      bytes := [];
      while last >= 128
        invariant |bytes| == count <= 10 && value == LebSum(bytes) % TWO64
        invariant if last >= 128
          then LebBytes(memory, old(curOffset), 0) == Prepend(bytes, LebBytes(memory, curOffset, count))
          else LebBytes(memory, old(curOffset), 0) == Got(bytes, curOffset)
        invariant count > 0 ==> last == bytes[count - 1]
        invariant last < 128 ==> count > 0
        decreases if last < 128 then 0 else 11 - count
      {
        var b := ReadByte();
        if b.None? {
          return Missing, last, count, bytes;
        }
        if count >= 10 {
          return BadShift, last, count, bytes;
        }
        last := b.value;
        PrependOne(bytes, last, LebBytes(memory, curOffset, count + 1));
        LebSumAppend(bytes, last);
        AddModulo(LebSum(bytes), (last % 128) * Pow128(count));
        value := (value + (last % 128) * Pow128(count) % TWO64) % TWO64;
        assert bytes == [] ==> bytes + [last] == [last];
        bytes := bytes + [last];
        count := count + 1;
      }
      r := Got(value, curOffset);
    }

    method ReadULEB128() returns (r: Read<nat>)
      modifies this
      ensures r == Uleb(memory, old(curOffset))
      ensures r.Got? ==> curOffset == r.next
    {
      var last, count;
      ghost var bytes;
      r, last, count, bytes := ReadLeb();
    }

    method ReadSLEB128() returns (r: Read<int>)
      modifies this
      ensures r == Sleb(memory, old(curOffset))
      ensures r.Got? ==> curOffset == r.next
    {
      var u, last, count;
      ghost var bytes;
      u, last, count, bytes := ReadLeb();
      if u.Got? {
        var v := ExtendSign(u.value, last, count);
        r := if v.Some? then Got(v.value, u.next) else BadShift;
      } else {
        r := if u.Missing? then Missing else BadShift;
      }
    }
  }
}
