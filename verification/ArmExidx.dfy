/**
 The ARM EHABI unwinder of ArmExidx.cpp without its logging: section 9.3, "Frame unwinding
 instructions", of ARM IHI 0038B. `Decode` reads one instruction from the front of `data_` and
 performs it; `Eval` does so until one says to stop. A shift of a 32-bit number by 32 or more
 has no defined result in C++ and is a status of its own here.
 */
module ArmExidx {
  import opened Basics
  import opened Bits
  import opened DwarfMemory

  const SP := 13
  const LR := 14
  const PC := 15

  type word = x: nat | x < TWO32

  type Reg = r: nat | r < 16

  type Registers = s: seq<word> | |s| == 16 witness seq(16, _ => 0)

  datatype Status =
    | Fine | NoUnwind | Finish | Reserved | Spare | Truncated
    | ReadFailed(address: word) | UndefinedShift

  /** What an instruction does, whatever its encoding. */
  datatype Op =
    | Add(n: nat)              // vsp = vsp + n
    | Subtract(n: nat)         // vsp = vsp - n
    | SetVsp(reg: Reg)         // vsp = r[reg]
    | Pop(list: seq<Reg>)      // pop these registers, the first at the lowest address
    | Halt(status: Status)

  datatype Decoded = Decoded(op: Op, rest: seq<byte>)

  // ---------------------------------------------------------------------------
  // Decoding

  /** The registers from `lo` up to `hi` whose bit is set. */
  function Picked(mask: nat, lo: nat, hi: nat): seq<Reg>
    requires hi <= 16
    decreases hi - lo, mask
  {
    if lo >= hi then [] else (if Bit(mask, lo) then [lo] else []) + Picked(mask, lo + 1, hi)
  }

  function Range(lo: nat, hi: nat): seq<Reg>
    requires hi <= 16
    decreases hi - lo
  {
    if lo >= hi then [] else [lo] + Range(lo + 1, hi)
  }

  datatype Leb = LebDone(bytes: seq<byte>, rest: seq<byte>) | LebStopped(status: Status, rest: seq<byte>)

  /** The bytes of a uleb128 operand. The sixth would be shifted by 35. */
  function TakeLeb(data: seq<byte>, k: nat): (r: Leb)
    ensures |r.rest| <= |data|
  {
    if data == [] then LebStopped(Truncated, [])
    else if k >= 5 then LebStopped(UndefinedShift, data[1..])
    else if data[0] < 128 then LebDone([data[0]], data[1..])
    else
      match TakeLeb(data[1..], k + 1)
      case LebDone(bytes, rest) => LebDone([data[0]] + bytes, rest)
      case LebStopped(status, rest) => LebStopped(status, rest)
  }

  function DecodeUleb(data: seq<byte>): Decoded {
    match TakeLeb(data, 0)
    case LebDone(bytes, rest) => Decoded(Add(0x204 + 4 * LebSum(bytes)), rest)
    case LebStopped(status, rest) => Decoded(Halt(status), rest)
  }

  /** 10110001 0000iiii */
  function DecodeLow(operand: byte): Op {
    if operand == 0 || operand >= 16 then Halt(Spare) else Pop(Picked(operand, 0, 4))
  }

  /** 1000iiii iiiiiiii */
  function DecodeHigh(high: nat, low: byte): Op {
    if high == 0 && low == 0 then Halt(NoUnwind) else Pop(Picked((high * 256 + low) * 16, 4, 16))
  }

  lemma HighRegisters(high: nat, low: byte, registers: nat)
    requires registers == high * 256 + low && registers > 0
    ensures DecodeHigh(high, low) == Pop(Picked(registers * 16, 4, 16))
  {
    assert (high * 256 + low) * 16 == registers * 16;
  }

  /** 1001nnnn */
  function DecodeMove(n: Reg): Op {
    if n == SP || n == PC then Halt(Reserved) else SetVsp(n)
  }

  /** 10100nnn and 10101nnn */
  function DecodeRange(n: nat, lr: bool): Op
    requires n < 8
  {
    Pop(if lr then Range(4, 5 + n) + [LR] else Range(4, 5 + n))
  }

  /** 11000111 0000iiii */
  function DecodeControl(operand: byte): Op {
    if operand == 0 || operand >= 16 then Halt(Spare) else Add(4 * |Picked(operand, 0, 4)|)
  }

  /** FSTMFDX stores one word more than the registers take. */
  function DecodeVfpX(n: nat): Op {
    Add(8 * n + 12)
  }

  function DecodeVfp(n: nat): Op {
    Add(8 * n + 8)
  }

  function First(data: seq<byte>): byte {
    if data == [] then 0 else data[0]
  }

  /** An instruction with an operand byte, which may be missing. */
  function WithOperand(data: seq<byte>, op: Op): Decoded {
    if data == [] then Decoded(Halt(Truncated), []) else Decoded(op, data[1..])
  }

  /** 1011xxxx */
  function Decode1011(b: byte, rest: seq<byte>): Decoded
    requires 0xb0 <= b < 0xc0
  {
    if b == 0xb0 then Decoded(Halt(Finish), rest)
    else if b == 0xb1 then WithOperand(rest, DecodeLow(First(rest)))
    else if b == 0xb2 then DecodeUleb(rest)
    else if b == 0xb3 then WithOperand(rest, DecodeVfpX(First(rest) % 16))
    else if b < 0xb8 then Decoded(Halt(Spare), rest)
    else Decoded(DecodeVfpX(b - 0xb8), rest)
  }

  /** 10xxxxxx */
  function Decode10(b: byte, rest: seq<byte>): Decoded
    requires 0x80 <= b < 0xc0
  {
    if b < 0x90 then WithOperand(rest, DecodeHigh(b - 0x80, First(rest)))
    else if b < 0xa0 then Decoded(DecodeMove(b - 0x90), rest)
    else if b < 0xa8 then Decoded(DecodeRange(b - 0xa0, false), rest)
    else if b < 0xb0 then Decoded(DecodeRange(b - 0xa8, true), rest)
    else Decode1011(b, rest)
  }

  /** 11xxxxxx */
  function Decode11(b: byte, rest: seq<byte>): Decoded
    requires 0xc0 <= b
  {
    if b < 0xc6 then Decoded(DecodeVfp(b - 0xc0), rest)
    else if b == 0xc6 then WithOperand(rest, DecodeVfp(First(rest) % 16))
    else if b == 0xc7 then WithOperand(rest, DecodeControl(First(rest)))
    else if b < 0xca then WithOperand(rest, DecodeVfp(First(rest) % 16))
    else if b < 0xd0 then Decoded(Halt(Spare), rest)
    else if b < 0xd8 then Decoded(DecodeVfp(b - 0xd0), rest)
    else Decoded(Halt(Spare), rest)
  }

  function Words(n: nat): nat {
    4 * n + 4
  }

  function DecodeOp(data: seq<byte>): (r: Decoded)
    ensures |r.rest| <= |data|
    ensures data != [] ==> |r.rest| < |data|
  {
    if data == [] then Decoded(Halt(Truncated), [])
    else
      var b, rest := data[0], data[1..];
      if b < 0x40 then Decoded(Add(Words(b)), rest)
      else if b < 0x80 then Decoded(Subtract(Words(b - 0x40)), rest)
      else if b < 0xc0 then Decode10(b, rest)
      else Decode11(b, rest)
  }

  // ---------------------------------------------------------------------------
  // Performing

  datatype State = State(regs: Registers, cfa: word, data: seq<byte>, pcSet: bool)

  /** `Stopped`: `Decode` returns false with this status. */
  datatype Outcome = More(state: State) | Stopped(status: Status, state: State)

  /** `Memory::Read32`. */
  function Word(memory: Memory, addr: nat): Option<word> {
    match ReadFully(memory, addr, 4)
    case None => None
    case Some(bytes) => FourBytes(bytes); Some(LittleEndian(bytes))
  }

  lemma FourBytes(bytes: seq<byte>)
    requires |bytes| == 4
    ensures LittleEndian(bytes) < TWO32
  {
    assert LittleEndian(bytes[3..]) == bytes[3];
    assert LittleEndian(bytes[2..]) == bytes[2] + 256 * LittleEndian(bytes[2..][1..]) && bytes[2..][1..] == bytes[3..];
    assert LittleEndian(bytes[1..]) == bytes[1] + 256 * LittleEndian(bytes[1..][1..]) && bytes[1..][1..] == bytes[2..];
  }

  datatype Popped = Popped(ok: bool, regs: Registers, cfa: word)

  /** Pops until a read fails. */
  function PopAll(memory: Memory, regs: Registers, cfa: word, list: seq<Reg>): Popped
    decreases |list|
  {
    if list == [] then Popped(true, regs, cfa)
    else
      match Word(memory, cfa)
      case None => Popped(false, regs, cfa)
      case Some(value) => PopAll(memory, regs[list[0] := value], (cfa + 4) % TWO32, list[1..])
  }

  function Perform(memory: Memory, s: State, op: Op): Outcome
  {
    match op
    case Add(n) => More(s.(cfa := (s.cfa + n) % TWO32))
    case Subtract(n) => More(s.(cfa := (s.cfa - n) % TWO32))
    case SetVsp(reg) => More(s.(cfa := s.regs[reg]))
    case Pop(list) =>
      var p := PopAll(memory, s.regs, s.cfa, list);
      if !p.ok then Stopped(ReadFailed(p.cfa), s.(regs := p.regs, cfa := p.cfa))
      else More(s.(regs := p.regs, cfa := if SP in list then p.regs[SP] else p.cfa, pcSet := s.pcSet || PC in list))
    case Halt(status) => Stopped(status, s)
  }

  function Decode(memory: Memory, s: State): (r: Outcome)
    ensures r.More? ==> |r.state.data| < |s.data|
  {
    var d := DecodeOp(s.data);
    Perform(memory, s.(data := d.rest), d.op)
  }

  /** Every instruction takes at least a byte, so this ends. */
  function Run(memory: Memory, s: State): (r: Outcome)
    ensures r.Stopped?
    decreases |s.data|
  {
    match Decode(memory, s)
    case More(next) => Run(memory, next)
    case Stopped(status, state) => Stopped(status, state)
  }

  function Eval(memory: Memory, s: State): Outcome {
    Run(memory, s.(pcSet := false))
  }

  // ---------------------------------------------------------------------------
  // The unwinder itself

  function PerformDecoded(memory: Memory, s: State, d: Decoded): Outcome {
    Perform(memory, s.(data := d.rest), d.op)
  }

  ghost function PrependLeb(bytes: seq<byte>, r: Leb): Leb {
    if r.LebDone? && bytes != [] then LebDone(bytes + r.bytes, r.rest) else r
  }

  lemma PrependLebOne(bytes: seq<byte>, b: byte, r: Leb)
    ensures PrependLeb(bytes, PrependLeb([b], r)) == PrependLeb(bytes + [b], r)
  {
    if r.LebDone? {
      assert bytes + ([b] + r.bytes) == bytes + [b] + r.bytes;
      assert bytes == [] ==> bytes + [b] == [b];
    }
  }

  lemma AddModulo32(a: int, b: int)
    ensures (a % TWO32 + b) % TWO32 == (a + b) % TWO32 == (a % TWO32 + b % TWO32) % TWO32
  {
  }

  lemma ResidueBelow(a: nat, bound: nat)
    requires a < bound
    ensures a % TWO32 < bound
  {
  }

  lemma ScaleModulo32(a: int, b: int)
    ensures (a + 4 * (b % TWO32)) % TWO32 == (a + 4 * b) % TWO32
  {
  }

  /** Adding a digit modulo 2^32. */
  lemma LebSum32(bytes: seq<byte>, b: byte, digit: nat)
    requires digit == (b % 128) * Pow128(|bytes|)
    ensures (LebSum(bytes) % TWO32 + digit % TWO32) % TWO32 == LebSum(bytes + [b]) % TWO32
  {
    LebSumAppend(bytes, b);
    DigitSum32(LebSum(bytes), digit, LebSum(bytes + [b]));
  }

  lemma DigitSum32(sum: int, digit: int, total: int)
    requires total == sum + digit
    ensures (sum % TWO32 + digit % TWO32) % TWO32 == total % TWO32
  {
    AddModulo32(sum, digit);
  }

  /** A digit cut off at 32 bits is still a multiple of its weight. */
  lemma DigitDivides(d: nat, weight: nat, digit: nat) returns (m: nat)
    requires d < 128 && weight in {1, 0x80, 0x4000, 0x20_0000, 0x1000_0000} && digit == d * weight % TWO32
    ensures digit == m * weight && digit + weight <= TWO32
  {
    if weight == 0x1000_0000 {
      m := LastDigit(d);
    } else {
      m := d;
      EarlierDigit(d, weight);
    }
  }

  lemma EarlierDigit(d: nat, weight: nat)
    requires d < 128 && weight in {1, 0x80, 0x4000, 0x20_0000}
    ensures d * weight + weight < TWO32
  {
  }

  lemma LastDigit(d: nat) returns (m: nat)
    requires d < 128
    ensures m < 16 && d * 0x1000_0000 % TWO32 == m * 0x1000_0000
  {
    m := d % 16;
    assert d * 0x1000_0000 == d / 16 * TWO32 + m * 0x1000_0000;
  }

  /** The digits so far have no bit in common with the next one. */
  lemma DigitIsAdded(result: word, b: byte, count: nat)
    requires count < 5 && result < Pow128(count)
    ensures
      var digit := (b % 128) * Pow128(count) % TWO32;
      BitOr(result, digit) == (result + digit) % TWO32 == result + digit
  {
    DigitWeight(count);
    OrDigit(result, b % 128, count, Pow128(count), (b % 128) * Pow128(count) % TWO32);
  }

  lemma DigitWeight(count: nat)
    requires count < 5
    ensures Pow128(count) in {1, 0x80, 0x4000, 0x20_0000, 0x1000_0000}
  {
    Pow128Values();
  }

  lemma OrDigit(result: nat, d: nat, count: nat, weight: nat, digit: nat)
    requires weight == Pow128(count) && result < weight && d < 128 && digit == d * weight % TWO32
    requires weight in {1, 0x80, 0x4000, 0x20_0000, 0x1000_0000}
    ensures BitOr(result, digit) == (result + digit) % TWO32 == result + digit
  {
    var m := DigitDivides(d, weight, digit);
    OrMultiple(result, m, count, digit);
  }

  lemma OrMultiple(result: nat, m: nat, count: nat, digit: nat)
    requires result < Pow128(count) && digit == m * Pow128(count)
    ensures BitOr(result, digit) == result + digit
  {
    Pow128IsPow2(count);
    OrIsSum(result, m, 7 * count);
  }

  lemma LargeSum32(cfa: int, sum: nat)
    ensures (cfa + 0x204 + 4 * (sum % TWO32) % TWO32) % TWO32 == (cfa + 0x204 + 4 * sum) % TWO32
  {
    ScaleModulo32(cfa + 0x204, sum);
    AddModulo32(4 * (sum % TWO32), cfa + 0x204);
  }

  /** Shifts and masks against ranges. */
  lemma Fields10(b: byte)
    requires 0x80 <= b < 0xc0
    ensures b / 16 % 4 == if b < 0x90 then 0 else if b < 0xa0 then 1 else if b < 0xb0 then 2 else 3
    ensures b < 0x90 ==> b % 16 == b - 0x80
    ensures 0x90 <= b < 0xa0 ==> b % 16 == b - 0x90
    ensures 0xa0 <= b < 0xa8 ==> b % 8 == b - 0xa0 && b / 8 % 2 == 0
    ensures 0xa8 <= b < 0xb0 ==> b % 8 == b - 0xa8 && b / 8 % 2 == 1
  {
  }

  lemma Fields1011(b: byte)
    requires 0xb0 <= b < 0xc0
    ensures b % 16 == b - 0xb0 && (b % 16 / 8 == 1 <==> b >= 0xb8)
    ensures b >= 0xb8 ==> b % 8 == b - 0xb8
  {
  }

  lemma {:induction false} PickedHas(mask: nat, lo: nat, hi: nat, r: Reg)
    requires hi <= 16
    ensures r in Picked(mask, lo, hi) <==> lo <= r < hi && Bit(mask, r)
    decreases hi - lo
  {
    if lo < hi {
      PickedHas(mask, lo + 1, hi, r);
    }
  }

  lemma {:induction false} RangeHas(lo: nat, hi: nat, r: Reg)
    requires hi <= 16
    ensures r in Range(lo, hi) <==> lo <= r < hi
    decreases hi - lo
  {
    if lo < hi {
      RangeHas(lo + 1, hi, r);
    }
  }

  class Unwinder {
    const memory: Memory
    const regs: array<word>
    var cfa: word
    var data: seq<byte>
    var status: Status
    var pcSet: bool

    ghost predicate Valid() {
      regs.Length == 16
    }

    ghost function View(): State
      requires Valid()
      reads this, regs
    {
      State(regs[..], cfa, data, pcSet)
    }

    /** The object shows this outcome after a call that returned `more`. */
    ghost predicate Shows(o: Outcome, more: bool)
      requires Valid()
      reads this, regs
    {
      match o
      case More(s) => more && View() == s
      case Stopped(why, s) => !more && status == why && View() == s
    }

    constructor (memory: Memory, regs: array<word>, cfa: word, data: seq<byte>)
      requires regs.Length == 16
      ensures Valid() && this.memory == memory && this.regs == regs && View() == State(regs[..], cfa, data, false)
    {
      this.memory, this.regs, this.cfa, this.data, status, pcSet := memory, regs, cfa, data, Fine, false;
    }

    method GetByte() returns (b: Option<byte>)
      requires Valid()
      modifies this
      ensures if old(data) == []
        then b == None && status == Truncated && View() == old(View())
        else b == Some(old(data)[0]) && View() == old(View()).(data := old(data)[1..]) && status == old(status)
    {
      if data == [] {
        status := Truncated;
        return None;
      }
      b := Some(data[0]);
      data := data[1..];
    }

    /** Pops one register. */
    method PopOne(reg: Reg) returns (ok: bool)
      requires Valid()
      modifies this, regs
      ensures data == old(data) && pcSet == old(pcSet)
      ensures
        match Word(memory, old(cfa))
        case None => !ok && status == ReadFailed(old(cfa)) && View() == old(View())
        case Some(value) => ok && regs[..] == old(regs[..])[reg := value] && cfa == (old(cfa) + 4) % TWO32
    {
      var value := Word(memory, cfa);
      if value.None? {
        status := ReadFailed(cfa);
        return false;
      }
      regs[reg] := value.value;
      cfa := (cfa + 4) % TWO32;
      return true;
    }

    /** Pops the registers from `lo` up to `hi` whose bit is set. */
    method PopMask(mask: nat, lo: nat, hi: nat) returns (ok: bool)
      requires Valid() && lo <= hi <= 16
      modifies this, regs
      ensures data == old(data) && pcSet == old(pcSet)
      ensures
        var p := PopAll(memory, old(regs[..]), old(cfa), Picked(mask, lo, hi));
        ok == p.ok && regs[..] == p.regs && cfa == p.cfa && (!ok ==> status == ReadFailed(cfa))
    {
      var reg := lo;
      while reg < hi
        invariant lo <= reg <= hi && data == old(data) && pcSet == old(pcSet)
        invariant PopAll(memory, regs[..], cfa, Picked(mask, reg, hi))
               == PopAll(memory, old(regs[..]), old(cfa), Picked(mask, lo, hi))
      {
        assert Bit(mask, reg) ==> Picked(mask, reg, hi)[1..] == Picked(mask, reg + 1, hi);
        assert !Bit(mask, reg) ==> Picked(mask, reg, hi) == Picked(mask, reg + 1, hi);
        if Bit(mask, reg) {
          var popped := PopOne(reg);
          if !popped {
            return false;
          }
        }
        reg := reg + 1;
      }
      return true;
    }

    method PopHigh(high: nat) returns (more: bool)
      requires Valid() && high < 16
      modifies this, regs
      ensures
        var decoded := WithOperand(old(data), DecodeHigh(high, First(old(data))));
        Shows(PerformDecoded(memory, old(View()), decoded), more)
    {
      var operand := GetByte();
      if operand.None? {
        return false;
      }
      var registers := high * 256 + operand.value;
      if registers == 0 {
        status := NoUnwind;
        return false;
      }
      HighRegisters(high, First(old(data)), registers);
      more := PopAndNote(registers * 16);
    }

    /** Pops r4-r15; a popped sp is the new vsp, a popped pc is noted. */
    method PopAndNote(mask: nat) returns (more: bool)
      requires Valid()
      modifies this, regs
      ensures Shows(Perform(memory, old(View()), Pop(Picked(mask, 4, 16))), more)
    {
      more := PopMask(mask, 4, 16);
      if !more {
        return;
      }
      PickedHas(mask, 4, 16, SP);
      PickedHas(mask, 4, 16, PC);
      if Bit(mask, SP) {
        cfa := regs[SP];
      }
      if Bit(mask, PC) {
        pcSet := true;
      }
    }

    method MoveVsp(bits: Reg) returns (more: bool)
      requires Valid()
      modifies this
      ensures Shows(Perform(memory, old(View()), DecodeMove(bits)), more)
    {
      if bits == 13 || bits == 15 {
        status := Reserved;
        return false;
      }
      cfa := regs[bits];
      return true;
    }

    /** Pops r4 up to r[4+n]. `tail` is what will be popped after them. */
    method PopRange(n: nat, ghost tail: seq<Reg>) returns (ok: bool)
      requires Valid() && n < 8
      modifies this, regs
      ensures data == old(data) && pcSet == old(pcSet)
      ensures PopAll(memory, old(regs[..]), old(cfa), Range(4, 5 + n) + tail)
           == if ok then PopAll(memory, regs[..], cfa, tail) else Popped(false, regs[..], cfa)
      ensures !ok ==> status == ReadFailed(cfa)
    {
      var i: nat := 4;
      while i <= 4 + n
        invariant 4 <= i <= 5 + n && data == old(data) && pcSet == old(pcSet)
        invariant PopAll(memory, regs[..], cfa, Range(i, 5 + n) + tail)
               == PopAll(memory, old(regs[..]), old(cfa), Range(4, 5 + n) + tail)
      {
        assert (Range(i, 5 + n) + tail)[1..] == Range(i + 1, 5 + n) + tail;
        ok := PopOne(i);
        if !ok {
          return;
        }
        i := i + 1;
      }
      assert Range(i, 5 + n) + tail == tail;
      ok := true;
    }

    method PopFromR4(n: nat, lr: bool) returns (more: bool)
      requires Valid() && n < 8
      modifies this, regs
      ensures Shows(Perform(memory, old(View()), DecodeRange(n, lr)), more)
    {
      ghost var tail := if lr then [LR] else [];
      assert Range(4, 5 + n) + [] == Range(4, 5 + n);
      RangeHas(4, 5 + n, SP);
      RangeHas(4, 5 + n, PC);
      more := PopRange(n, tail);
      if more && lr {
        assert tail[1..] == [];
        more := PopOne(LR);
      }
    }

    method PopLow() returns (more: bool)
      requires Valid()
      modifies this, regs
      ensures Shows(PerformDecoded(memory, old(View()), WithOperand(old(data), DecodeLow(First(old(data))))), more)
    {
      var operand := GetByte();
      if operand.None? {
        return false;
      }
      if operand.value == 0 || operand.value / 16 != 0 {
        status := Spare;
        return false;
      }
      PickedHas(operand.value, 0, 4, SP);
      PickedHas(operand.value, 0, 4, PC);
      more := PopMask(operand.value, 0, 4);
    }

    /** Adds a uleb128 operand, in 32-bit arithmetic. */
    /** `result |= (byte & 0x7f) << shift` in 32 bits. */
    method AddDigit(result: word, b: byte, count: nat) returns (sum: word)
      requires count < 5 && result < Pow128(count)
      ensures forall bytes {:trigger LebSum(bytes + [b])} ::
        |bytes| == count && result == LebSum(bytes) % TWO32 ==> sum == LebSum(bytes + [b]) % TWO32
    {
      var digit := (b % 128) * Pow128(count);
      DigitIsAdded(result, b, count);
      sum := BitOr(result, digit % TWO32);
      forall bytes: seq<byte> | |bytes| == count && result == LebSum(bytes) % TWO32
        ensures sum == LebSum(bytes + [b]) % TWO32
      {
        LebSum32(bytes, b, digit);
      }
    }

    method AddUleb() returns (more: bool)
      requires Valid()
      modifies this
      ensures Shows(PerformDecoded(memory, old(View()), DecodeUleb(old(data))), more)
    {
      var result: word := 0;
      var count: nat := 0;
      var last: byte := 128;
      ghost var bytes: seq<byte> := [];
      while last >= 128
        invariant |bytes| == count <= 5 && result == LebSum(bytes) % TWO32
        invariant last < 128 ==> count > 0
        invariant TakeLeb(old(data), 0) ==
          if last >= 128 then PrependLeb(bytes, TakeLeb(data, count)) else LebDone(bytes, data)
        invariant cfa == old(cfa) && pcSet == old(pcSet)
        decreases if last < 128 then 0 else 6 - count
      {
        var b := GetByte();
        if b.None? {
          return false;
        }
        if count >= 5 {
          status := UndefinedShift;
          return false;
        }
        last := b.value;
        PrependLebOne(bytes, last, TakeLeb(data, count + 1));
        LebSumBound(bytes);
        ResidueBelow(LebSum(bytes), Pow128(count));
        result := AddDigit(result, last, count);
        assert bytes == [] ==> bytes + [last] == [last];
        bytes := bytes + [last];
        count := count + 1;
      }
      LargeSum32(cfa, LebSum(bytes));
      cfa := (cfa + 0x204 + 4 * result % TWO32) % TWO32;
      return true;
    }

    /** Adds to the vsp. */
    method AddVsp(n: nat)
      requires Valid()
      modifies this`cfa
      ensures View() == old(View()).(cfa := (old(cfa) + n) % TWO32)
    {
      cfa := (cfa + n) % TWO32;
    }

    /** An operand byte whose low four bits say how many double registers to skip. */
    method SkipDoubles(extra: nat) returns (more: bool)
      requires Valid()
      modifies this
      ensures
        var op := Add(8 * (First(old(data)) % 16) + extra);
        Shows(PerformDecoded(memory, old(View()), WithOperand(old(data), op)), more)
    {
      var operand := GetByte();
      if operand.None? {
        return false;
      }
      AddVsp(operand.value % 16 * 8 + extra);
      return true;
    }

    method SkipControl() returns (more: bool)
      requires Valid()
      modifies this
      ensures Shows(PerformDecoded(memory, old(View()), WithOperand(old(data), DecodeControl(First(old(data))))), more)
    {
      var operand := GetByte();
      if operand.None? {
        return false;
      }
      if operand.value == 0 || operand.value / 16 != 0 {
        status := Spare;
        return false;
      }
      AddVsp(4 * |Picked(operand.value, 0, 4)|);
      return true;
    }

    method Prefix1011(b: byte) returns (more: bool)
      requires Valid() && 0xb0 <= b < 0xc0
      modifies this, regs
      ensures Shows(PerformDecoded(memory, old(View()), Decode1011(b, old(data))), more)
    {
      var low := b % 16;
      Fields1011(b);
      if low == 0 {
        status := Finish;
        more := false;
      } else if low == 1 {
        more := PopLow();
      } else if low == 2 {
        more := AddUleb();
      } else if low == 3 {
        more := SkipDoubles(12);
      } else if low / 8 == 1 {
        AddVsp(b % 8 * 8 + 12);
        more := true;
      } else {
        status := Spare;
        more := false;
      }
    }

    method Prefix10(b: byte) returns (more: bool)
      requires Valid() && 0x80 <= b < 0xc0
      modifies this, regs
      ensures Shows(PerformDecoded(memory, old(View()), Decode10(b, old(data))), more)
    {
      var kind, n, r, lr := b / 16 % 4, b % 8, b % 16, b / 8 % 2 == 1;
      Fields10(b);
      if kind == 0 {
        more := PopHigh(r);
      } else if kind == 1 {
        more := MoveVsp(r);
      } else if kind == 2 {
        more := PopFromR4(n, lr);
      } else {
        more := Prefix1011(b);
      }
    }

    method Prefix11(b: byte) returns (more: bool)
      requires Valid() && 0xc0 <= b
      modifies this
      ensures Shows(PerformDecoded(memory, old(View()), Decode11(b, old(data))), more)
    {
      var kind, bits := b / 8 % 8, b % 8;
      assert b == 0xc0 + 8 * kind + bits;
      if (kind == 0 && bits == 6) || (kind == 1 && bits <= 1) {
        more := SkipDoubles(8);
      } else if kind == 0 && bits == 7 {
        more := SkipControl();
      } else if kind == 0 || kind == 2 {
        AddVsp(bits * 8 + 8);
        more := true;
      } else {
        status := Spare;
        more := false;
      }
    }

    /** Reads and performs one instruction. */
    method DecodeNext() returns (more: bool)
      requires Valid()
      modifies this, regs
      ensures Shows(Decode(memory, old(View())), more)
    {
      status := Fine;
      var b := GetByte();
      if b.None? {
        return false;
      }
      var kind, words: nat := b.value / 64, b.value % 64;
      if kind == 0 {
        AddVsp(4 * words + 4);
        more := true;
      } else if kind == 1 {
        cfa := (cfa - (4 * words + 4)) % TWO32;
        more := true;
      } else if kind == 2 {
        more := Prefix10(b.value);
      } else {
        more := Prefix11(b.value);
      }
    }

    /** Unwinds one frame. */
    method Evaluate() returns (ok: bool)
      requires Valid()
      modifies this, regs
      ensures
        var o := Eval(memory, old(View()));
        ok == (o.status == Finish) && status == o.status && View() == o.state
    {
      pcSet := false;
      var more := true;
      while more
        invariant more ==> Run(memory, View()) == Eval(memory, old(View()))
        invariant !more ==> Eval(memory, old(View())) == Stopped(status, View())
        decreases more, |data|
      {
        more := DecodeNext();
      }
      return status == Finish;
    }
  }
}
