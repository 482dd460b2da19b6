/**
 The DWARF expression stack machine (DwarfOp.cpp, section 2.5.1 of DWARF 4), on the bytes of
 the section. What C++ leaves undefined is an outcome of its own: reading past the stack,
 shifting by the operand width or more, and dividing the least signed value by -1. Negating the
 least signed value is undefined too, and is taken to wrap, as it does in two's complement.
 */
module DwarfOp {
  import opened Basics
  import opened Bits
  import opened DwarfMemory

  datatype Encoding = Absptr | Udata(size: nat) | Sdata(size: nat) | Uleb128 | Sleb128

  /** Operations on the two topmost values. */
  datatype Arithmetic =
    | And | Div | Minus | Mod | Mul | Or | Plus | Shl | Shr | Shra | Xor | Eq | Ge | Gt | Le | Lt | Ne

  /** Operations on the topmost value. */
  datatype Unary = Abs | Neg | Not

  datatype Shuffle = Dup | Drop | Over | Pick | Swap | Rot

  /** `DwarfOpHandleFunc`. */
  datatype Handler =
    | OpIllegal | OpNotImplemented | OpNop
    | OpBinary(arithmetic: Arithmetic) | OpUnary(unary: Unary) | OpShuffle(shuffle: Shuffle)
    | OpPush | OpPlusUconst | OpDeref | OpDerefSize | OpBra | OpSkip
    | OpLit | OpReg | OpRegx | OpBreg | OpBregx

  datatype OpInfo = OpInfo(handler: Handler, required: nat, operands: seq<Encoding>)

  /** `kCallbackTable`. */
  function Table(op: byte): OpInfo {
    if op == 0x03 then OpInfo(OpPush, 0, [Absptr])
    else if op == 0x06 then OpInfo(OpDeref, 1, [])
    else if 0x08 <= op <= 0x11 then OpInfo(OpPush, 0, [ConstantEncoding(op)])
    else if op == 0x12 then OpInfo(OpShuffle(Dup), 1, [])
    else if op == 0x13 then OpInfo(OpShuffle(Drop), 1, [])
    else if op == 0x14 then OpInfo(OpShuffle(Over), 2, [])
    else if op == 0x15 then OpInfo(OpShuffle(Pick), 0, [Udata(1)])
    else if op == 0x16 then OpInfo(OpShuffle(Swap), 2, [])
    else if op == 0x17 then OpInfo(OpShuffle(Rot), 3, [])
    else if op == 0x18 then OpInfo(OpNotImplemented, 2, [])
    else if 0x19 <= op <= 0x27 then ArithmeticTable(op)
    else if op == 0x28 then OpInfo(OpBra, 1, [Sdata(2)])
    else if 0x29 <= op <= 0x2e then OpInfo(OpBinary(Comparison(op)), 2, [])
    else if op == 0x2f then OpInfo(OpSkip, 0, [Sdata(2)])
    else if 0x30 <= op <= 0x4f then OpInfo(OpLit, 0, [])
    else if 0x50 <= op <= 0x6f then OpInfo(OpReg, 0, [])
    else if 0x70 <= op <= 0x8f then OpInfo(OpBreg, 0, [Sleb128])
    else if 0x90 <= op <= 0x9f then LateTable(op)
    else OpInfo(OpIllegal, 0, [])
  }

  function ConstantEncoding(op: byte): Encoding
    requires 0x08 <= op <= 0x11
  {
    match op
    case 0x08 => Udata(1)
    case 0x09 => Sdata(1)
    case 0x0a => Udata(2)
    case 0x0b => Sdata(2)
    case 0x0c => Udata(4)
    case 0x0d => Sdata(4)
    case 0x0e => Udata(8)
    case 0x0f => Sdata(8)
    case 0x10 => Uleb128
    case _ => Sleb128
  }

  function Comparison(op: byte): Arithmetic
    requires 0x29 <= op <= 0x2e
  {
    match op
    case 0x29 => Eq
    case 0x2a => Ge
    case 0x2b => Gt
    case 0x2c => Le
    case 0x2d => Lt
    case _ => Ne
  }

  function ArithmeticTable(op: byte): OpInfo
    requires 0x19 <= op <= 0x27
  {
    match op
    case 0x19 => OpInfo(OpUnary(Abs), 1, [])
    case 0x1a => OpInfo(OpBinary(And), 2, [])
    case 0x1b => OpInfo(OpBinary(Div), 2, [])
    case 0x1c => OpInfo(OpBinary(Minus), 2, [])
    case 0x1d => OpInfo(OpBinary(Mod), 2, [])
    case 0x1e => OpInfo(OpBinary(Mul), 2, [])
    case 0x1f => OpInfo(OpUnary(Neg), 1, [])
    case 0x20 => OpInfo(OpUnary(Not), 1, [])
    case 0x21 => OpInfo(OpBinary(Or), 2, [])
    case 0x22 => OpInfo(OpBinary(Plus), 2, [])
    case 0x23 => OpInfo(OpPlusUconst, 1, [Uleb128])
    case 0x24 => OpInfo(OpBinary(Shl), 2, [])
    case 0x25 => OpInfo(OpBinary(Shr), 2, [])
    case 0x26 => OpInfo(OpBinary(Shra), 2, [])
    case _ => OpInfo(OpBinary(Xor), 2, [])
  }

  function LateTable(op: byte): OpInfo
    requires 0x90 <= op <= 0x9f
  {
    match op
    case 0x90 => OpInfo(OpRegx, 0, [Uleb128])
    case 0x91 => OpInfo(OpNotImplemented, 0, [Sleb128])
    case 0x92 => OpInfo(OpBregx, 0, [Uleb128, Sleb128])
    case 0x93 => OpInfo(OpNotImplemented, 0, [Uleb128])
    case 0x94 => OpInfo(OpDerefSize, 1, [Udata(1)])
    case 0x95 => OpInfo(OpNotImplemented, 0, [Udata(1)])
    case 0x96 => OpInfo(OpNop, 0, [])
    case 0x98 => OpInfo(OpNotImplemented, 0, [Udata(2)])
    case 0x99 => OpInfo(OpNotImplemented, 0, [Udata(4)])
    case 0x9d => OpInfo(OpNotImplemented, 0, [Uleb128, Uleb128])
    case 0x9e => OpInfo(OpNotImplemented, 0, [Uleb128])
    case 0x9f => OpInfo(OpNotImplemented, 1, [])
    case _ => OpInfo(OpNotImplemented, 0, [])
  }

  // ---------------------------------------------------------------------------
  // Operands

  /** Two to the power of the number of bits in `size` bytes. */
  function Span(size: nat): nat {
    match size
    case 1 => 0x100
    case 2 => 0x1_0000
    case 4 => TWO32
    case _ => TWO64
  }

  /** `ReadEncodedValue` for the encodings the table uses. */
  function ReadEncoded(w: Width, memory: Memory, offset: nat, e: Encoding): Read<nat> {
    match e
    case Absptr => ReadNumber(memory, offset, w.Bytes())
    case Udata(size) => ReadNumber(memory, offset, size)
    case Sdata(size) =>
      (match ReadNumber(memory, offset, size)
       case Got(v, next) => Got(if 2 * v >= Span(size) then (v - Span(size)) % TWO64 else v, next)
       case Missing => Missing
       case BadShift => BadShift)
    case Uleb128 => Uleb(memory, offset)
    case Sleb128 =>
      (match Sleb(memory, offset)
       case Got(v, next) => Got(v % TWO64, next)
       case Missing => Missing
       case BadShift => BadShift)
  }

  /** Operands are stored as `AddressType`. */
  function ReadOperands(w: Width, memory: Memory, offset: nat, es: seq<Encoding>): (r: Read<seq<nat>>)
    ensures r.Got? ==> |r.value| == |es|
    decreases |es|
  {
    if es == [] then Got([], offset)
    else
      match ReadEncoded(w, memory, offset, es[0])
      case Got(v, next) =>
        (match ReadOperands(w, memory, next, es[1..])
         case Got(rest, end) => Got([w.Truncate(v)] + rest, end)
         case Missing => Missing
         case BadShift => BadShift)
      case Missing => Missing
      case BadShift => BadShift
  }

  // ---------------------------------------------------------------------------
  // Arithmetic on AddressType

  function ShiftLeft(x: nat, n: nat): nat {
    if n == 0 then x else 2 * ShiftLeft(x, n - 1)
  }

  /** Rounds down, also for negative numbers. */
  function ShiftRight(x: int, n: nat): int {
    if n == 0 then x else ShiftRight(x, n - 1) / 2
  }

  function Complement(w: Width, x: int): nat {
    w.Truncate(-1 - x)
  }

  datatype Computed = Value(v: nat) | Error(error: DwarfError) | Undefined

  /** C++ signed division: the quotient is truncated toward zero. */
  function Divide(w: Width, a: int, b: int): Computed {
    if b == 0 then Error(IllegalValue)
    else if b == -1 && 2 * a + w.Modulus() == 0 then Undefined
    else
      var x := if a < 0 then -a else a;
      var y := if b < 0 then -b else b;
      Value(w.Truncate(if (a < 0) == (b < 0) then x / y else -(x / y)))
  }

  function FromBool(b: bool): nat {
    if b then 1 else 0
  }

  /** The handlers that replace the two topmost values, `below` and `top`, by one. */
  function Binary(w: Width, op: Arithmetic, below: nat, top: nat): Computed {
    match op
    case And => Value(w.Truncate(BitAnd(below, top)))
    case Or => Value(w.Truncate(BitOr(below, top)))
    case Xor => Value(w.Truncate(BitXor(below, top)))
    case Plus => Value(w.Truncate(below + top))
    case Minus => Value(w.Truncate(below - top))
    case Mul => Value(w.Truncate(below * top))
    case Div => Divide(w, w.Signed(below), w.Signed(top))
    case Mod => if top == 0 then Error(IllegalValue) else Value(below % top)
    case Shl => if top >= 8 * w.Bytes() then Undefined else Value(w.Truncate(ShiftLeft(below, top)))
    case Shr => if top >= 8 * w.Bytes() then Undefined else Value(w.Truncate(ShiftRight(below, top)))
    case Shra => if top >= 8 * w.Bytes() then Undefined else Value(w.Truncate(ShiftRight(w.Signed(below), top)))
    case Eq => Value(FromBool(below == top))
    case Ge => Value(FromBool(below >= top))
    case Gt => Value(FromBool(below > top))
    case Le => Value(FromBool(below <= top))
    case Lt => Value(FromBool(below < top))
    case Ne => Value(FromBool(below != top))
  }

  // ---------------------------------------------------------------------------
  // The machine

  /** `regs` is what `RegsInfo::Get` answers for each register. */
  datatype Env = Env(width: Width, section: Memory, regular: Memory, regs: seq<nat>)

  /** The front of `stack` is the top. */
  datatype State = State(offset: nat, stack: seq<nat>, isRegister: bool, curOp: byte, operands: seq<nat>)

  datatype Step = Next(state: State) | Fail(error: DwarfError) | Stuck

  /** The number of values a handler takes from the stack or looks at unseen. Pick compares its
      index with the size of the stack itself. */
  function Needs(h: Handler): nat {
    match h
    case OpBinary(_) => 2
    case OpUnary(_) => 1
    case OpShuffle(op) =>
      (match op case Dup | Drop => 1 case Over | Swap => 2 case Rot => 3 case Pick => 0)
    case OpPlusUconst | OpDeref | OpDerefSize | OpBra => 1
    case _ => 0
  }

  function NumOperands(h: Handler): nat {
    match h
    case OpShuffle(op) => if op.Pick? then 1 else 0
    case OpPush | OpPlusUconst | OpDerefSize | OpBra | OpSkip | OpRegx | OpBreg => 1
    case OpBregx => 2
    case _ => 0
  }

  function Push(s: State, v: nat): Step {
    Next(s.(stack := [v] + s.stack))
  }

  /** A cast to int16_t. */
  function AsInt16(x: nat): int {
    if x % 0x10000 >= 0x8000 then x % 0x10000 - 0x10000 else x % 0x10000
  }

  function Jump(s: State, delta: int): Step {
    Next(s.(offset := (s.offset + delta) % TWO64))
  }

  function PushRegister(env: Env, s: State, reg: nat, delta: nat): Step {
    if reg >= |env.regs| then Fail(IllegalValue)
    else Push(s, env.width.Truncate(env.regs[reg] + delta))
  }

  function Dereference(env: Env, s: State, size: nat): Step
    requires s.stack != []
  {
    match ReadFully(env.regular, s.stack[0], size)
    case None => Fail(MemoryInvalid)
    case Some(bytes) => Next(s.(stack := [LittleEndian(bytes)] + s.stack[1..]))
  }

  function ReplaceTop(s: State, v: nat): Step
    requires s.stack != []
  {
    Next(s.(stack := s.stack[0 := v]))
  }

  function ReplaceTwo(s: State, c: Computed): Step
    requires |s.stack| >= 2
  {
    match c
    case Value(v) => Next(s.(stack := [v] + s.stack[2..]))
    case Error(error) => Fail(error)
    case Undefined => Stuck
  }

  function ApplyUnary(w: Width, op: Unary, x: nat): nat {
    match op
    case Abs => if w.Signed(x) < 0 then w.Truncate(-w.Signed(x)) else x
    case Neg => w.Truncate(-w.Signed(x))
    case Not => Complement(w, x)
  }

  function ApplyShuffle(s: State, op: Shuffle): Step
    requires Needs(OpShuffle(op)) <= |s.stack| && NumOperands(OpShuffle(op)) <= |s.operands|
  {
    match op
    case Dup => Push(s, s.stack[0])
    case Drop => Next(s.(stack := s.stack[1..]))
    case Over => Push(s, s.stack[1])
    case Pick =>
      if s.operands[0] > |s.stack| then Fail(StackIndexNotValid)
      else if s.operands[0] == |s.stack| then Stuck
      else Push(s, s.stack[s.operands[0]])
    case Swap => Next(s.(stack := [s.stack[1], s.stack[0]] + s.stack[2..]))
    case Rot => Next(s.(stack := [s.stack[1], s.stack[2], s.stack[0]] + s.stack[3..]))
  }

  /** The effect of one handler. */
  function Apply(env: Env, s: State, h: Handler): Step
    requires Needs(h) <= |s.stack| && NumOperands(h) <= |s.operands|
  {
    match h
    case OpBinary(op) => ReplaceTwo(s, Binary(env.width, op, s.stack[1], s.stack[0]))
    case OpUnary(op) => ReplaceTop(s, ApplyUnary(env.width, op, s.stack[0]))
    case OpShuffle(op) => ApplyShuffle(s, op)
    case OpPush => Push(s, s.operands[0])
    case OpPlusUconst => ReplaceTop(s, env.width.Truncate(s.stack[0] + s.operands[0]))
    case OpDeref => Dereference(env, s, env.width.Bytes())
    case OpDerefSize =>
      if s.operands[0] > env.width.Bytes() || s.operands[0] == 0 then Fail(IllegalValue)
      else Dereference(env, s, s.operands[0])
    case OpBra =>
      var delta := AsInt16(s.operands[0]);
      Jump(s.(stack := s.stack[1..]), if s.stack[0] != 0 then delta else -delta)
    case OpSkip => Jump(s, AsInt16(s.operands[0]))
    case OpLit => Push(s, (s.curOp - 0x30) % 256)
    case OpReg => Push(s.(isRegister := true), (s.curOp - 0x50) % 256)
    case OpRegx => Push(s.(isRegister := true), s.operands[0])
    case OpBreg => PushRegister(env, s, (s.curOp - 0x70) % 256, s.operands[0])
    case OpBregx => PushRegister(env, s, s.operands[0], s.operands[1])
    case OpNop => Next(s)
    case OpNotImplemented => Fail(NotImplemented)
    case OpIllegal => Fail(IllegalValue)
  }

  /** Section 2.5.1.5 of DWARF 4: a branch that is not taken goes on with the next operation. */
  function StandardBranch(s: State): Step
    requires s.stack != [] && s.operands != []
  {
    Jump(s.(stack := s.stack[1..]), if s.stack[0] != 0 then AsInt16(s.operands[0]) else 0)
  }

  /** DW_OP_bra branches backwards instead of going on: it is the standard's exactly when it is
      taken or its offset is zero. */
  lemma BranchIsStandardExactly(env: Env, s: State)
    requires s.stack != [] && s.operands != []
    ensures Apply(env, s, OpBra) == StandardBranch(s) <==> s.stack[0] != 0 || s.operands[0] % 0x10000 == 0
  {
    var delta := AsInt16(s.operands[0]);
    SameOffset(s.offset, delta);
  }

  lemma SameOffset(offset: nat, delta: int)
    requires -0x8000 <= delta < 0x8000
    ensures (offset - delta) % TWO64 == offset % TWO64 <==> delta == 0
  {
    var q := (offset - delta) / TWO64 - offset / TWO64;
    if (offset - delta) % TWO64 == offset % TWO64 {
      assert -delta == TWO64 * q;
    }
  }

  /** A table entry asks for at least the stack values and operands its handler uses unchecked. */
  predicate Covers(info: OpInfo) {
    Needs(info.handler) <= info.required && NumOperands(info.handler) <= |info.operands|
  }

  lemma TableCovers(op: byte)
    ensures Covers(Table(op))
  {
  }

  /** `Decode` once the operation has been looked up. */
  function DecodeAs(env: Env, s: State, op: byte, info: OpInfo): Step
    requires Covers(info)
  {
    if info.handler.OpIllegal? then Fail(IllegalValue)
    else if |s.stack| < info.required then Fail(StackIndexNotValid)
    else
      ApplyTo(env, s, op, info, ReadOperands(env.width, env.section, (s.offset + 1) % TWO64, info.operands))
  }

  /** `Decode` once the operands have been read. */
  function ApplyTo(env: Env, s: State, op: byte, info: OpInfo, r: Read<seq<nat>>): Step
    requires Covers(info) && info.required <= |s.stack| && (r.Got? ==> |r.value| == |info.operands|)
  {
    match r
    case Missing => Fail(MemoryInvalid)
    case BadShift => Stuck
    case Got(operands, next) => Apply(env, State(next, s.stack, s.isRegister, op, operands), info.handler)
  }

  /** `Decode`: one operation. */
  function Decode(env: Env, s: State): Step {
    if s.offset !in env.section then Fail(MemoryInvalid)
    else
      var op := env.section[s.offset];
      TableCovers(op);
      DecodeAs(env, s, op, Table(op))
  }

  /** The operation decoded before does not matter. */
  lemma DecodeByTable(env: Env, s: State)
    requires s.offset in env.section
    ensures
      var op := env.section[s.offset];
      Covers(Table(op)) && Decode(env, s) == DecodeAs(env, s.(curOp := op), op, Table(op))
  {
    var op := env.section[s.offset];
    TableCovers(op);
    DecodeAsForgets(env, s, op, Table(op));
  }

  lemma DecodeAsForgets(env: Env, s: State, op: byte, info: OpInfo)
    requires Covers(info)
    ensures DecodeAs(env, s.(curOp := op), op, info) == DecodeAs(env, s, op, info)
  {
  }

  // ---------------------------------------------------------------------------
  // Eval

  const DEX1: nat := 0x31584544

  datatype Outcome = Done(state: State, dexPcSet: bool) | Failed(error: DwarfError) | Undetermined

  function Start(start: nat): State {
    State(start, [], false, 0, [])
  }

  predicate PushesDex1(s: State) {
    s.curOp == 0x0c && s.operands == [DEX1]
  }

  /** The control structure around `Decode` does not depend on what the operations do. */
  type Decoder = State -> Step

  /** The counted loop; `iterations` operations have been decoded. */
  function Loop(decode: Decoder, s: State, end: nat, iterations: nat, dexPcSet: bool): Outcome
    requires iterations <= 1000
    decreases 1000 - iterations, end
  {
    if s.offset >= end then Done(s, dexPcSet)
    else
      match decode(s)
      case Fail(error) => Failed(error)
      case Stuck => Undetermined
      case Next(t) =>
        if iterations == 1000 then Failed(TooManyIterations)
        else Loop(decode, t, end, iterations + 1, dexPcSet)
  }

  /** `Eval`: the first two operations are unrolled to recognise the dex pc marker. */
  function EvalWith(decode: Decoder, start: nat, end: nat): Outcome {
    if start >= end then Done(Start(start), false)
    else
      match decode(Start(start))
      case Fail(error) => Failed(error)
      case Stuck => Undetermined
      case Next(s1) =>
        if s1.offset >= end then Done(s1, false)
        else
          match decode(s1)
          case Fail(error) => Failed(error)
          case Stuck => Undetermined
          case Next(s2) => Loop(decode, s2, end, 2, PushesDex1(s1) && s2.curOp == 0x13)
  }

  /** The machine after `n` operations, wherever the expression ends. */
  function Steps(decode: Decoder, s: State, n: nat): Step {
    if n == 0 then Next(s)
    else
      match Steps(decode, s, n - 1)
      case Next(t) => decode(t)
      case Fail(error) => Fail(error)
      case Stuck => Stuck
  }

  /** After `n` operations the machine is still inside the expression. */
  predicate Inside(decode: Decoder, s: State, end: nat, n: nat) {
    var r := Steps(decode, s, n);
    r.Next? && r.state.offset < end
  }

  /** The expression is left after exactly `n` operations, in state `t`. */
  predicate Leaves(decode: Decoder, s: State, end: nat, n: nat, t: State) {
    && (forall j :: 0 <= j < n ==> Inside(decode, s, end, j))
    && Steps(decode, s, n) == Next(t) && t.offset >= end
  }

  /** The first two operations are DW_OP_const4u 'DEX1' and DW_OP_drop. */
  predicate StartsWithDexMarker(decode: Decoder, s: State, n: nat) {
    && n >= 2
    && var s1 := Steps(decode, s, 1); var s2 := Steps(decode, s, 2);
    s1.Next? && s2.Next? && PushesDex1(s1.state) && s2.state.curOp == 0x13
  }

  lemma {:induction false} LoopRuns(decode: Decoder, s: State, end: nat, k: nat, dex: bool) returns (n: nat)
    requires 2 <= k <= 1000 && (forall j :: 0 <= j < k ==> Inside(decode, s, end, j))
    requires Steps(decode, s, k).Next?
    ensures k <= n <= 1001
    ensures
      match Loop(decode, Steps(decode, s, k).state, end, k, dex)
      case Done(t, d) => n <= 1000 && Leaves(decode, s, end, n, t) && d == dex
      case Failed(error) =>
        && (forall j :: 0 <= j < n ==> Inside(decode, s, end, j))
        && var r := Steps(decode, s, n);
        r == Fail(error) || (error == TooManyIterations && n == 1001 && r.Next?)
      case Undetermined => (forall j :: 0 <= j < n ==> Inside(decode, s, end, j)) && Steps(decode, s, n) == Stuck
    decreases 1000 - k
  {
    if Steps(decode, s, k).state.offset >= end {
      n := k;
    } else {
      assert Inside(decode, s, end, k);
      if k < 1000 && Steps(decode, s, k + 1).Next? {
        n := LoopRuns(decode, s, end, k + 1, dex);
      } else {
        n := k + 1;
      }
    }
  }

  /** `Eval` decodes at most 1001 operations. It succeeds exactly by leaving the expression
      after at most 1000 of them; it sets the dex pc flag exactly when the first two are the
      marker; otherwise some operation failed, had no defined result, or was number 1001. */
  lemma {:induction false} EvalRuns(decode: Decoder, start: nat, end: nat) returns (n: nat)
    ensures n <= 1001
    ensures
      var s := Start(start);
      match EvalWith(decode, start, end)
      case Done(t, dex) => n <= 1000 && Leaves(decode, s, end, n, t) && dex == StartsWithDexMarker(decode, s, n)
      case Failed(error) =>
        && (forall j :: 0 <= j < n ==> Inside(decode, s, end, j))
        && var r := Steps(decode, s, n);
        r == Fail(error) || (error == TooManyIterations && n == 1001 && r.Next?)
      case Undetermined => (forall j :: 0 <= j < n ==> Inside(decode, s, end, j)) && Steps(decode, s, n) == Stuck
  {
    var s := Start(start);
    assert Steps(decode, s, 0) == Next(s);
    assert Steps(decode, s, 1) == decode(s);
    if start >= end {
      n := 0;
    } else {
      assert Inside(decode, s, end, 0);
      n := 1;
      if decode(s).Next? && decode(s).state.offset < end {
        assert Inside(decode, s, end, 1);
        assert Steps(decode, s, 2) == decode(Steps(decode, s, 1).state);
        n := 2;
        if Steps(decode, s, 2).Next? {
          n := LoopRuns(decode, s, end, 2, StartsWithDexMarker(decode, s, 2));
        }
      }
    }
  }

  lemma LeavesOnce(decode: Decoder, s: State, end: nat, n: nat, t: State, n': nat, t': State)
    requires Leaves(decode, s, end, n, t) && Leaves(decode, s, end, n', t')
    ensures n == n' && t == t'
  {
    assert !Inside(decode, s, end, n) && !Inside(decode, s, end, n');
  }

  /** Leaving the expression after at most 1000 operations is enough for success. */
  lemma LeavingSucceeds(decode: Decoder, start: nat, end: nat, n: nat, t: State)
    requires n <= 1000 && Leaves(decode, Start(start), end, n, t)
    ensures EvalWith(decode, start, end) == Done(t, StartsWithDexMarker(decode, Start(start), n))
  {
    var m := EvalRuns(decode, start, end);
    var r := EvalWith(decode, start, end);
    assert !Inside(decode, Start(start), end, n);
    assert r.Done? || m == 1001 || !Inside(decode, Start(start), end, m);
    if r.Done? {
      LeavesOnce(decode, Start(start), end, n, t, m, r.state);
    }
  }

  /** `Eval` on the bytes of a section. */
  function Eval(env: Env, start: nat, end: nat): Outcome {
    EvalWith(s => Decode(env, s), start, end)
  }

  /** The operations with no defined result: a pick just past the stack, a shift by the full
      width or more, and dividing the least value by -1. abs and neg of the least value wrap. */
  predicate HasNoResult(w: Width, s: State, h: Handler)
    requires Needs(h) <= |s.stack| && NumOperands(h) <= |s.operands|
  {
    match h
    case OpShuffle(op) => op.Pick? && s.operands[0] == |s.stack|
    case OpBinary(op) =>
      || ((op.Shl? || op.Shr? || op.Shra?) && s.stack[0] >= 8 * w.Bytes())
      || (op.Div? && w.Signed(s.stack[0]) == -1 && 2 * w.Signed(s.stack[1]) + w.Modulus() == 0)
    case _ => false
  }

  lemma ApplyStuckExactly(env: Env, s: State, h: Handler)
    requires Needs(h) <= |s.stack| && NumOperands(h) <= |s.operands|
    ensures Apply(env, s, h) == Stuck <==> HasNoResult(env.width, s, h)
  {
  }

  lemma ApplyGrowth(env: Env, s: State, h: Handler)
    requires Needs(h) <= |s.stack| && NumOperands(h) <= |s.operands| && Apply(env, s, h).Next?
    ensures |Apply(env, s, h).state.stack| <= |s.stack| + 1
  {
  }

  lemma DecodeAsGrowth(env: Env, s: State, op: byte, info: OpInfo)
    requires Covers(info) && DecodeAs(env, s, op, info).Next?
    ensures |DecodeAs(env, s, op, info).state.stack| <= |s.stack| + 1
  {
    var at := (s.offset + 1) % TWO64;
    ApplyToGrowth(env, s, op, info, ReadOperands(env.width, env.section, at, info.operands));
  }

  lemma ApplyToGrowth(env: Env, s: State, op: byte, info: OpInfo, r: Read<seq<nat>>)
    requires Covers(info) && info.required <= |s.stack| && (r.Got? ==> |r.value| == |info.operands|)
    requires ApplyTo(env, s, op, info, r).Next?
    ensures |ApplyTo(env, s, op, info, r).state.stack| <= |s.stack| + 1
  {
    ApplyGrowth(env, State(r.next, s.stack, s.isRegister, op, r.value), info.handler);
  }

  lemma DecodeGrowth(env: Env, s: State)
    requires Decode(env, s).Next?
    ensures |Decode(env, s).state.stack| <= |s.stack| + 1
  {
    var op := env.section[s.offset];
    TableCovers(op);
    DecodeAsGrowth(env, s, op, Table(op));
  }

  /** No operation pushes more than one value. */
  ghost predicate GrowsByOne(decode: Decoder) {
    forall s :: decode(s).Next? ==> |decode(s).state.stack| <= |s.stack| + 1
  }

  lemma {:induction false} StepsGrowth(decode: Decoder, s: State, n: nat)
    requires GrowsByOne(decode) && Steps(decode, s, n).Next?
    ensures |Steps(decode, s, n).state.stack| <= |s.stack| + n
  {
    if n > 0 {
      StepsGrowth(decode, s, n - 1);
    }
  }

  /** The stack never holds more values than operations have been decoded. */
  lemma StackBound(env: Env, start: nat, n: nat)
    requires Steps(s => Decode(env, s), Start(start), n).Next?
    ensures |Steps(s => Decode(env, s), Start(start), n).state.stack| <= n
  {
    var decode: Decoder := s => Decode(env, s);
    forall s | decode(s).Next?
      ensures |decode(s).state.stack| <= |s.stack| + 1
    {
      DecodeGrowth(env, s);
    }
    StepsGrowth(decode, Start(start), n);
  }

  // ---------------------------------------------------------------------------
  // The evaluator itself

  datatype Flow = Continue | Return(error: DwarfError) | NoResult

  /** How a handler's return value and the new state answer to a step of the machine. */
  predicate Answers(flow: Flow, state: State, step: Step) {
    match step
    case Next(t) => flow == Continue && state == t
    case Fail(error) => flow == Return(error)
    case Stuck => flow == NoResult
  }

  class Evaluator {
    const env: Env
    var offset: nat
    var stack: seq<nat>
    var isRegister: bool
    var curOp: byte
    var operands: seq<nat>
    var dexPcSet: bool

    constructor (env: Env)
      ensures this.env == env && Current() == Start(0) && !dexPcSet
    {
      this.env := env;
      offset, stack, isRegister, curOp, operands, dexPcSet := 0, [], false, 0, [], false;
    }

    function Current(): State
      reads this
    {
      State(offset, stack, isRegister, curOp, operands)
    }

    method StackPop() returns (v: nat)
      requires stack != []
      modifies this`stack
      ensures v == old(stack[0]) && stack == old(stack)[1..]
    {
      v := stack[0];
      stack := stack[1..];
    }

    method HandleBinary(op: Arithmetic) returns (flow: Flow)
      requires |stack| >= 2
      modifies this`stack
      ensures
        var s := old(Current());
        Answers(flow, Current(), ReplaceTwo(s, Binary(env.width, op, s.stack[1], s.stack[0])))
    {
      var top := StackPop();
      var c := Binary(env.width, op, stack[0], top);
      match c
      case Value(v) =>
        assert stack[0 := v] == [v] + old(stack)[2..];
        stack := stack[0 := v];
        flow := Continue;
      case Error(error) => flow := Return(error);
      case Undefined => flow := NoResult;
    }

    method HandleShuffle(op: Shuffle) returns (flow: Flow)
      requires Needs(OpShuffle(op)) <= |stack| && NumOperands(OpShuffle(op)) <= |operands|
      modifies this`stack
      ensures Answers(flow, Current(), ApplyShuffle(old(Current()), op))
    {
      flow := Continue;
      match op
      case Dup => stack := [stack[0]] + stack;
      case Drop => var _ := StackPop();
      case Over => stack := [stack[1]] + stack;
      case Pick =>
        if operands[0] > |stack| {
          return Return(StackIndexNotValid);
        }
        if operands[0] == |stack| {
          return NoResult;
        }
        stack := [stack[operands[0]]] + stack;
      case Swap =>
        assert stack[0 := stack[1]][1 := stack[0]] == [stack[1], stack[0]] + stack[2..];
        stack := stack[0 := stack[1]][1 := stack[0]];
      case Rot =>
        assert stack[0 := stack[1]][1 := stack[2]][2 := stack[0]] == [stack[1], stack[2], stack[0]] + stack[3..];
        stack := stack[0 := stack[1]][1 := stack[2]][2 := stack[0]];
    }

    method HandleDeref(size: nat) returns (flow: Flow)
      requires stack != []
      modifies this`stack
      ensures Answers(flow, Current(), Dereference(env, old(Current()), size))
    {
      var addr := StackPop();
      var bytes := ReadFully(env.regular, addr, size);
      if bytes == None {
        return Return(MemoryInvalid);
      }
      stack := [LittleEndian(bytes.value)] + stack;
      flow := Continue;
    }

    /** The `op_*` handlers: every stack access is in range. */
    /** `op_bra` and `op_skip`. */
    method HandleJump(h: Handler)
      requires h.OpBra? || h.OpSkip?
      requires Needs(h) <= |stack| && NumOperands(h) <= |operands|
      modifies this`stack, this`offset
      ensures Answers(Continue, Current(), Apply(env, old(Current()), h))
    {
      var delta := AsInt16(operands[0]);
      if h.OpSkip? {
        offset := (offset + delta) % TWO64;
        return;
      }
      var top := StackPop();
      if top != 0 {
        offset := (offset + delta) % TWO64;
      } else {
        offset := (offset - delta) % TWO64;
      }
    }

    /** `op_breg` and `op_bregx`. */
    method PushRegisterSum(reg: nat, delta: nat) returns (flow: Flow)
      modifies this`stack
      ensures Answers(flow, Current(), PushRegister(env, old(Current()), reg, delta))
    {
      if reg >= |env.regs| {
        return Return(IllegalValue);
      }
      stack := [env.width.Truncate(env.regs[reg] + delta)] + stack;
      flow := Continue;
    }

    /** `op_deref` and `op_deref_size`. */
    method HandleLoad(h: Handler) returns (flow: Flow)
      requires h.OpDeref? || h.OpDerefSize?
      requires Needs(h) <= |stack| && NumOperands(h) <= |operands|
      modifies this`stack
      ensures Answers(flow, Current(), Apply(env, old(Current()), h))
    {
      if h.OpDeref? {
        flow := HandleDeref(env.width.Bytes());
      } else if operands[0] > env.width.Bytes() || operands[0] == 0 {
        flow := Return(IllegalValue);
      } else {
        flow := HandleDeref(operands[0]);
      }
    }

    method Handle(h: Handler) returns (flow: Flow)
      requires Needs(h) <= |stack| && NumOperands(h) <= |operands|
      modifies this`stack, this`offset, this`isRegister
      ensures Answers(flow, Current(), Apply(env, old(Current()), h))
    {
      flow := Continue;
      match h
      case OpBinary(op) => flow := HandleBinary(op);
      case OpUnary(op) => stack := stack[0 := ApplyUnary(env.width, op, stack[0])];
      case OpShuffle(op) => flow := HandleShuffle(op);
      case OpPush => stack := [operands[0]] + stack;
      case OpPlusUconst => stack := stack[0 := env.width.Truncate(stack[0] + operands[0])];
      case OpDeref => flow := HandleLoad(h);
      case OpDerefSize => flow := HandleLoad(h);
      case OpBra => HandleJump(h);
      case OpSkip => HandleJump(h);
      case OpLit => stack := [(curOp - 0x30) % 256] + stack;
      case OpReg =>
        isRegister := true;
        stack := [(curOp - 0x50) % 256] + stack;
      case OpRegx =>
        isRegister := true;
        stack := [operands[0]] + stack;
      case OpBreg => flow := PushRegisterSum((curOp - 0x70) % 256, operands[0]);
      case OpBregx => flow := PushRegisterSum(operands[0], operands[1]);
      case OpNop =>
      case OpNotImplemented => flow := Return(NotImplemented);
      case OpIllegal => flow := Return(IllegalValue);
    }

    method HandleWith(info: OpInfo, r: Read<seq<nat>>) returns (flow: Flow)
      requires Covers(info) && info.required <= |stack| && (r.Got? ==> |r.value| == |info.operands|)
      modifies this`offset, this`stack, this`isRegister, this`operands
      ensures Answers(flow, Current(), ApplyTo(env, old(Current()), curOp, info, r))
    {
      if r.Missing? {
        return Return(MemoryInvalid);
      }
      if r.BadShift? {
        return NoResult;
      }
      operands, offset := r.value, r.next;
      flow := Handle(info.handler);
    }

    method DecodeAsInfo(info: OpInfo) returns (flow: Flow)
      requires Covers(info)
      modifies this`offset, this`stack, this`isRegister, this`operands
      ensures Answers(flow, Current(), DecodeAs(env, old(Current()), curOp, info))
    {
      if info.handler.OpIllegal? {
        return Return(IllegalValue);
      }
      if |stack| < info.required {
        return Return(StackIndexNotValid);
      }
      var r := ReadOperands(env.width, env.section, (offset + 1) % TWO64, info.operands);
      flow := HandleWith(info, r);
    }

    method DecodeNext() returns (flow: Flow)
      modifies this`offset, this`stack, this`isRegister, this`curOp, this`operands
      ensures Answers(flow, Current(), Decode(env, old(Current())))
    {
      if offset !in env.section {
        return Return(MemoryInvalid);
      }
      DecodeByTable(env, Current());
      curOp := env.section[offset];
      flow := DecodeAsInfo(Table(curOp));
    }

    /** `Eval`. */
    method Evaluate(start: nat, end: nat) returns (flow: Flow)
      modifies this
      ensures
        match Eval(env, start, end)
        case Done(t, dex) => flow == Continue && Current() == t && dexPcSet == dex
        case Failed(error) => flow == Return(error)
        case Undetermined => flow == NoResult
    {
      flow := EvaluateWith(start, end, s => Decode(env, s));
    }

    /** `decode` stands for `Decode` in this environment. */
    method EvaluateWith(start: nat, end: nat, ghost decode: Decoder) returns (flow: Flow)
      requires forall s {:trigger Decode(env, s)} :: decode(s) == Decode(env, s)
      modifies this
      ensures
        match EvalWith(decode, start, end)
        case Done(t, dex) => flow == Continue && Current() == t && dexPcSet == dex
        case Failed(error) => flow == Return(error)
        case Undetermined => flow == NoResult
    {
      isRegister, stack, offset, dexPcSet, curOp, operands := false, [], start, false, 0, [];
      if offset >= end {
        return Continue;
      }
      flow := DecodeOnce(decode);
      if flow != Continue {
        return;
      }
      var checkForDrop := curOp == 0x0c && operands == [DEX1];
      if offset >= end {
        return Continue;
      }
      flow := DecodeOnce(decode);
      if flow != Continue {
        return;
      }
      if checkForDrop && curOp == 0x13 {
        dexPcSet := true;
      }
      var iterations := 2;
      while offset < end
        invariant 2 <= iterations <= 1000 && flow == Continue
        invariant EvalWith(decode, start, end) == Loop(decode, Current(), end, iterations, dexPcSet)
        decreases 1000 - iterations
      {
        flow := DecodeOnce(decode);
        if flow != Continue {
          return;
        }
        if iterations == 1000 {
          return Return(TooManyIterations);
        }
        iterations := iterations + 1;
      }
    }

    method DecodeOnce(ghost decode: Decoder) returns (flow: Flow)
      requires forall s {:trigger Decode(env, s)} :: decode(s) == Decode(env, s)
      modifies this`offset, this`stack, this`isRegister, this`curOp, this`operands
      ensures Answers(flow, Current(), decode(old(Current())))
    {
      flow := DecodeNext();
    }
  }
}
