/**
 Arithmetic expressions compiled to DWARF operations: evaluating the bytes gives the value of
 the expression.
 */
module DwarfExpression {
  import opened Basics
  import opened Bits
  import opened DwarfMemory
  import opened DwarfOp

  datatype BinaryOp = Add | Sub | Times | BitwiseAnd | BitwiseOr | BitwiseXor

  datatype Expr =
    | Lit(n: nat)
    | Constu(c: nat)
    | Consts(v: int)
    | Breg(reg: nat, delta: int)
    | Negate(e: Expr)
    | Complemented(e: Expr)
    | PlusUconst(e: Expr, c: nat)
    | Bin(op: BinaryOp, left: Expr, right: Expr)

  /** The range ReadSLEB128 can return. */
  predicate SlebRange(v: int) {
    -0x4000_0000_0000_0000 <= v < 0x8000_0000_0000_0000
  }

  /** Operands fit their encodings and registers exist. */
  predicate Encodable(e: Expr, regs: nat) {
    match e
    case Lit(n) => n < 32
    case Constu(c) => c < TWO64
    case Consts(v) => SlebRange(v)
    case Breg(reg, delta) => reg < regs && reg < TWO32 && SlebRange(delta)
    case Negate(e) => Encodable(e, regs)
    case Complemented(e) => Encodable(e, regs)
    case PlusUconst(e, c) => Encodable(e, regs) && c < TWO64
    case Bin(_, left, right) => Encodable(left, regs) && Encodable(right, regs)
  }

  /** The value over the integers; the bitwise operations see residues. */
  function Meaning(w: Width, regs: seq<nat>, e: Expr): int
    requires Encodable(e, |regs|)
  {
    match e
    case Lit(n) => n
    case Constu(c) => c
    case Consts(v) => v
    case Breg(reg, delta) => regs[reg] + delta
    case Negate(e) => -Meaning(w, regs, e)
    case Complemented(e) => -1 - Meaning(w, regs, e)
    case PlusUconst(e, c) => Meaning(w, regs, e) + c
    case Bin(op, left, right) => Combine(w, op, Meaning(w, regs, left), Meaning(w, regs, right))
  }

  function Combine(w: Width, op: BinaryOp, x: int, y: int): int {
    match op
    case Add => x + y
    case Sub => x - y
    case Times => x * y
    case BitwiseAnd => BitAnd(w.Truncate(x), w.Truncate(y))
    case BitwiseOr => BitOr(w.Truncate(x), w.Truncate(y))
    case BitwiseXor => BitXor(w.Truncate(x), w.Truncate(y))
  }

  function Opcode(op: BinaryOp): byte {
    match op
    case Add => 0x22
    case Sub => 0x1c
    case Times => 0x1e
    case BitwiseAnd => 0x1a
    case BitwiseOr => 0x21
    case BitwiseXor => 0x27
  }

  /** Postfix encoding. */
  function Compile(e: Expr): (bytes: seq<byte>)
    ensures |bytes| > 0
  {
    match e
    case Lit(n) => [0x30 + n % 32]
    case Constu(c) => [0x10] + EncodeUleb(c)
    case Consts(v) => [0x11] + EncodeSleb(v)
    case Breg(reg, delta) =>
      if reg < 32 then [0x70 + reg] + EncodeSleb(delta) else [0x92] + EncodeUleb(reg) + EncodeSleb(delta)
    case Negate(e) => Compile(e) + [0x1f]
    case Complemented(e) => Compile(e) + [0x20]
    case PlusUconst(e, c) => Compile(e) + ([0x23] + EncodeUleb(c))
    case Bin(op, left, right) => Compile(left) + (Compile(right) + [Opcode(op)])
  }

  /** The number of operations. */
  function Ops(e: Expr): nat {
    match e
    case Lit(_) | Constu(_) | Consts(_) | Breg(_, _) => 1
    case Negate(e) => Ops(e) + 1
    case Complemented(e) => Ops(e) + 1
    case PlusUconst(e, _) => Ops(e) + 1
    case Bin(_, left, right) => Ops(left) + Ops(right) + 1
  }

  // ---------------------------------------------------------------------------
  // Residues

  lemma TruncateTwice(w: Width, x: int)
    ensures w.Truncate(x % TWO64) == w.Truncate(x)
  {
    match w
    case W32 => SameResidue(w, x % TWO64, x, -(x / TWO64 * TWO32));
    case W64 => SameResidue(w, x % TWO64, x, -(x / TWO64));
  }

  lemma TruncateSum(w: Width, x: int, y: int)
    ensures w.Truncate(w.Truncate(x) + w.Truncate(y)) == w.Truncate(x + y)
    ensures w.Truncate(w.Truncate(x) - w.Truncate(y)) == w.Truncate(x - y)
  {
    var m: int := w.Modulus();
    assert m * (-(x / m + y / m)) == -(m * (x / m)) - m * (y / m);
    SameResidue(w, w.Truncate(x) + w.Truncate(y), x + y, -(x / m + y / m));
    assert m * (y / m - x / m) == m * (y / m) - m * (x / m);
    SameResidue(w, w.Truncate(x) - w.Truncate(y), x - y, y / m - x / m);
  }

  lemma TruncateOffset(w: Width, x: int, y: int)
    ensures w.Truncate(x + w.Truncate(y)) == w.Truncate(x + y)
  {
    SameResidue(w, x + w.Truncate(y), x + y, -(y / w.Modulus()));
  }

  lemma TruncateNegation(w: Width, x: int)
    ensures w.Truncate(-w.Signed(w.Truncate(x))) == w.Truncate(-x)
    ensures Complement(w, w.Truncate(x)) == w.Truncate(-1 - x)
  {
    var m: int := w.Modulus();
    var t := w.Truncate(x);
    SameResidue(w, -1 - t, -1 - x, x / m);
    assert w.Truncate(t) == t by {
      SameResidue(w, t, x, -(x / m));
    }
    var k := if 2 * t >= m then x / m + 1 else x / m;
    assert m * (x / m + 1) == m * (x / m) + m;
    SameResidue(w, -w.Signed(t), -x, k);
  }

  lemma TruncateProduct(w: Width, x: int, y: int)
    ensures w.Truncate(w.Truncate(x) * w.Truncate(y)) == w.Truncate(x * y)
  {
    var m: int := w.Modulus();
    var a, b := x / m, y / m;
    var u, v: int := w.Truncate(x), w.Truncate(y);
    assert x * y == u * v + m * (a * y + u * b) by {
      assert x == m * a + u && y == m * b + v;
      assert x * y == m * a * y + u * y;
      assert u * y == u * (m * b) + u * v;
      assert u * (m * b) == m * (u * b);
      assert m * a * y == m * (a * y);
    }
    SameResidue(w, x * y, u * v, a * y + u * b);
  }

  // ---------------------------------------------------------------------------
  // One operation at a time

  /** The step consumed `length` bytes and left `stack`. */
  ghost predicate Moves(r: Step, s: State, length: nat, stack: seq<nat>) {
    && r.Next? && r.state.offset == s.offset + length && r.state.stack == stack
    && r.state.isRegister == s.isRegister
  }

  ghost predicate Implements(decode: Decoder, env: Env) {
    forall s {:trigger Decode(env, s)} :: decode(s) == Decode(env, s)
  }

  lemma DecodeIsDecodeAs(env: Env, decode: Decoder, s: State, op: byte, info: OpInfo)
    requires Implements(decode, env)
    requires s.offset in env.section && env.section[s.offset] == op && Table(op) == info
    ensures Covers(info) && decode(s) == DecodeAs(env, s, op, info)
  {
    TableCovers(op);
    assert decode(s) == Decode(env, s);
  }

  /** Decoding is applying the handler that the table names to the operands that follow. */
  lemma DecodeAsApplies(env: Env, s: State, op: byte, info: OpInfo, operands: seq<nat>, next: nat)
    requires Covers(info) && !info.handler.OpIllegal? && info.required <= |s.stack| && s.offset + 1 < TWO64
    requires ReadOperands(env.width, env.section, s.offset + 1, info.operands) == Got(operands, next)
    ensures DecodeAs(env, s, op, info)
         == Apply(env, State(next, s.stack, s.isRegister, op, operands), info.handler)
  {
    DecodeAsAppliesTo(env, s, op, info, s.offset + 1);
  }

  lemma DecodeApplies(
      env: Env, decode: Decoder, s: State, op: byte, info: OpInfo, operands: seq<nat>, next: nat)
    requires Implements(decode, env) && s.offset in env.section && env.section[s.offset] == op && Table(op) == info
    requires !info.handler.OpIllegal? && info.required <= |s.stack| && s.offset + 1 < TWO64
    requires ReadOperands(env.width, env.section, s.offset + 1, info.operands) == Got(operands, next)
    ensures Covers(info) && Needs(info.handler) <= |s.stack| && NumOperands(info.handler) <= |operands|
    ensures decode(s) == Apply(env, State(next, s.stack, s.isRegister, op, operands), info.handler)
  {
    DecodeIsDecodeAs(env, decode, s, op, info);
    DecodeAsApplies(env, s, op, info, operands, next);
  }

  lemma DecodeAsAppliesTo(env: Env, s: State, op: byte, info: OpInfo, at: nat)
    requires Covers(info) && !info.handler.OpIllegal? && info.required <= |s.stack| && at == (s.offset + 1) % TWO64
    ensures DecodeAs(env, s, op, info)
         == ApplyTo(env, s, op, info, ReadOperands(env.width, env.section, at, info.operands))
  {
  }

  lemma OneOperand(env: Env, offset: nat, e: Encoding)
    requires ReadEncoded(env.width, env.section, offset, e).Got?
    ensures
      var r := ReadEncoded(env.width, env.section, offset, e);
      ReadOperands(env.width, env.section, offset, [e]) == Got([env.width.Truncate(r.value)], r.next)
  {
    var r := ReadEncoded(env.width, env.section, offset, e);
    var v := env.width.Truncate(r.value);
    assert ReadOperands(env.width, env.section, r.next, [e][1..]) == Got([], r.next);
    assert [v] + [] == [v];
  }

  lemma TwoOperands(env: Env, offset: nat, e: Encoding, e': Encoding)
    requires ReadEncoded(env.width, env.section, offset, e).Got?
    requires ReadEncoded(env.width, env.section, ReadEncoded(env.width, env.section, offset, e).next, e').Got?
    ensures
      var r := ReadEncoded(env.width, env.section, offset, e);
      var r' := ReadEncoded(env.width, env.section, r.next, e');
      ReadOperands(env.width, env.section, offset, [e, e'])
      == Got([env.width.Truncate(r.value), env.width.Truncate(r'.value)], r'.next)
  {
    var r := ReadEncoded(env.width, env.section, offset, e);
    OneOperand(env, r.next, e');
    assert [e, e'][1..] == [e'];
    var v, v' := env.width.Truncate(r.value), env.width.Truncate(ReadEncoded(env.width, env.section, r.next, e').value);
    assert [v] + [v'] == [v, v'];
  }

  lemma DecodeLit(env: Env, decode: Decoder, s: State, n: nat)
    requires Implements(decode, env)
    requires n < 32 && Holds(env.section, s.offset, [0x30 + n])
    ensures Moves(decode(s), s, 1, [env.width.Truncate(n)] + s.stack)
  {
    DecodeApplies(env, decode, s, 0x30 + n, OpInfo(OpLit, 0, []), [], s.offset + 1);
  }

  lemma DecodePush(env: Env, decode: Decoder, s: State, op: byte, e: Encoding, v: nat, next: nat)
    requires Implements(decode, env)
    requires s.offset in env.section && env.section[s.offset] == op && s.offset + 1 < TWO64
    requires Table(op) == OpInfo(OpPush, 0, [e])
    requires ReadOperands(env.width, env.section, s.offset + 1, [e]) == Got([v], next)
    ensures decode(s) == Next(State(next, [v] + s.stack, s.isRegister, op, [v]))
  {
    DecodeApplies(env, decode, s, op, OpInfo(OpPush, 0, [e]), [v], next);
  }

  lemma DecodeDrop(env: Env, decode: Decoder, s: State)
    requires Implements(decode, env)
    requires s.stack != [] && Holds(env.section, s.offset, [0x13])
    ensures decode(s) == Next(State(s.offset + 1, s.stack[1..], s.isRegister, 0x13, []))
  {
    DecodeApplies(env, decode, s, 0x13, OpInfo(OpShuffle(Drop), 1, []), [], s.offset + 1);
  }

  lemma DecodeConstu(env: Env, decode: Decoder, s: State, c: nat)
    requires Implements(decode, env)
    requires c < TWO64 && Holds(env.section, s.offset, [0x10] + EncodeUleb(c))
    ensures Moves(decode(s), s, 1 + |EncodeUleb(c)|, [env.width.Truncate(c)] + s.stack)
  {
    var next := s.offset + 1 + |EncodeUleb(c)|;
    UlebOperand(env, s.offset, 0x10, c);
    DecodePush(env, decode, s, 0x10, Uleb128, env.width.Truncate(c), next);
  }

  lemma UlebOperand(env: Env, offset: nat, op: byte, c: nat)
    requires c < TWO64 && Holds(env.section, offset, [op] + EncodeUleb(c))
    ensures offset in env.section && env.section[offset] == op && offset + 1 < TWO64
    ensures ReadOperands(env.width, env.section, offset + 1, [Uleb128])
         == Got([env.width.Truncate(c)], offset + 1 + |EncodeUleb(c)|)
  {
    HoldsParts(env.section, offset, [op], EncodeUleb(c));
    UlebRoundTrip(env.section, offset + 1, c);
    OneOperand(env, offset + 1, Uleb128);
  }

  /** A signed operand arrives as its residue. */
  lemma SlebValue(env: Env, offset: nat, v: int)
    requires SlebRange(v) && Holds(env.section, offset, EncodeSleb(v))
    ensures ReadEncoded(env.width, env.section, offset, Sleb128) == Got(v % TWO64, offset + |EncodeSleb(v)|)
  {
    SlebRoundTripExactly(env.section, offset, v);
  }

  lemma SlebOperand(env: Env, offset: nat, op: byte, v: int)
    requires SlebRange(v) && Holds(env.section, offset, [op] + EncodeSleb(v))
    ensures offset in env.section && env.section[offset] == op && offset + 1 < TWO64
    ensures ReadOperands(env.width, env.section, offset + 1, [Sleb128])
         == Got([env.width.Truncate(v)], offset + 1 + |EncodeSleb(v)|)
  {
    HoldsParts(env.section, offset, [op], EncodeSleb(v));
    SlebValue(env, offset + 1, v);
    OneOperand(env, offset + 1, Sleb128);
    TruncateTwice(env.width, v);
  }

  lemma DecodeConsts(env: Env, decode: Decoder, s: State, v: int)
    requires Implements(decode, env)
    requires SlebRange(v) && Holds(env.section, s.offset, [0x11] + EncodeSleb(v))
    ensures Moves(decode(s), s, 1 + |EncodeSleb(v)|, [env.width.Truncate(v)] + s.stack)
  {
    var next := s.offset + 1 + |EncodeSleb(v)|;
    SlebOperand(env, s.offset, 0x11, v);
    DecodePush(env, decode, s, 0x11, Sleb128, env.width.Truncate(v), next);
  }

  lemma DecodeBreg(env: Env, decode: Decoder, s: State, reg: nat, delta: int)
    requires Implements(decode, env)
    requires reg < 32 && reg < |env.regs| && SlebRange(delta)
    requires Holds(env.section, s.offset, [0x70 + reg] + EncodeSleb(delta))
    ensures Moves(decode(s), s, 1 + |EncodeSleb(delta)|, [env.width.Truncate(env.regs[reg] + delta)] + s.stack)
  {
    var next := s.offset + 1 + |EncodeSleb(delta)|;
    SlebOperand(env, s.offset, 0x70 + reg, delta);
    DecodePushRegister(env, decode, s, reg, env.width.Truncate(delta), next);
    TruncateOffset(env.width, env.regs[reg], delta);
  }

  lemma DecodePushRegister(env: Env, decode: Decoder, s: State, reg: nat, operand: nat, next: nat)
    requires Implements(decode, env) && reg < 32 && reg < |env.regs|
    requires s.offset in env.section && env.section[s.offset] == 0x70 + reg && s.offset + 1 < TWO64
    requires ReadOperands(env.width, env.section, s.offset + 1, [Sleb128]) == Got([operand], next)
    ensures decode(s) == PushRegister(env, State(next, s.stack, s.isRegister, 0x70 + reg, [operand]), reg, operand)
  {
    var info := OpInfo(OpBreg, 0, [Sleb128]);
    BregInfo(reg);
    DecodeApplies(env, decode, s, 0x70 + reg, info, [operand], next);
    BregPushes(env, State(next, s.stack, s.isRegister, 0x70 + reg, [operand]), reg, operand);
  }

  lemma BregPushes(env: Env, s: State, reg: nat, operand: nat)
    requires reg < 32 && reg < |env.regs| && s.curOp == 0x70 + reg && s.operands == [operand]
    ensures Apply(env, s, OpBreg) == PushRegister(env, s, reg, operand)
  {
  }

  lemma BregInfo(reg: nat)
    requires reg < 32
    ensures Table(0x70 + reg) == OpInfo(OpBreg, 0, [Sleb128])
  {
  }

  lemma BregxParts(env: Env, offset: nat, reg: nat, delta: int)
    requires Holds(env.section, offset, [0x92] + EncodeUleb(reg) + EncodeSleb(delta))
    ensures offset in env.section && env.section[offset] == 0x92 && offset + 1 < TWO64
    ensures Holds(env.section, offset + 1, EncodeUleb(reg))
    ensures Holds(env.section, offset + 1 + |EncodeUleb(reg)|, EncodeSleb(delta))
  {
    HoldsParts(env.section, offset, [0x92] + EncodeUleb(reg), EncodeSleb(delta));
    HoldsParts(env.section, offset, [0x92], EncodeUleb(reg));
  }

  lemma BregxOperands(env: Env, offset: nat, reg: nat, delta: int)
    requires reg < TWO32 && SlebRange(delta)
    requires Holds(env.section, offset, EncodeUleb(reg))
    requires Holds(env.section, offset + |EncodeUleb(reg)|, EncodeSleb(delta))
    ensures ReadOperands(env.width, env.section, offset, [Uleb128, Sleb128])
         == Got([reg, env.width.Truncate(delta)], offset + |EncodeUleb(reg)| + |EncodeSleb(delta)|)
  {
    UlebRoundTrip(env.section, offset, reg);
    SlebValue(env, offset + |EncodeUleb(reg)|, delta);
    TwoOperands(env, offset, Uleb128, Sleb128);
    TruncateTwice(env.width, delta);
    SmallResidue(env.width, reg);
  }

  lemma SmallResidue(w: Width, x: nat)
    requires x < TWO32
    ensures w.Truncate(x) == x
  {
  }

  lemma DecodeBregx(env: Env, decode: Decoder, s: State, reg: nat, delta: int)
    requires Implements(decode, env)
    requires reg < TWO32 && reg < |env.regs| && SlebRange(delta)
    requires Holds(env.section, s.offset, [0x92] + EncodeUleb(reg) + EncodeSleb(delta))
    ensures Moves(decode(s), s, 1 + |EncodeUleb(reg)| + |EncodeSleb(delta)|,
                  [env.width.Truncate(env.regs[reg] + delta)] + s.stack)
  {
    var next := s.offset + 1 + |EncodeUleb(reg)| + |EncodeSleb(delta)|;
    BregxParts(env, s.offset, reg, delta);
    BregxOperands(env, s.offset + 1, reg, delta);
    DecodePushRegisterX(env, decode, s, reg, env.width.Truncate(delta), next);
    TruncateOffset(env.width, env.regs[reg], delta);
  }

  lemma DecodePushRegisterX(env: Env, decode: Decoder, s: State, reg: nat, operand: nat, next: nat)
    requires Implements(decode, env) && reg < |env.regs|
    requires s.offset in env.section && env.section[s.offset] == 0x92 && s.offset + 1 < TWO64
    requires ReadOperands(env.width, env.section, s.offset + 1, [Uleb128, Sleb128]) == Got([reg, operand], next)
    ensures decode(s) == PushRegister(env, State(next, s.stack, s.isRegister, 0x92, [reg, operand]), reg, operand)
  {
    var info := OpInfo(OpBregx, 0, [Uleb128, Sleb128]);
    DecodeApplies(env, decode, s, 0x92, info, [reg, operand], next);
  }

  lemma DecodeUnary(env: Env, decode: Decoder, s: State, op: byte, x: int, rest: seq<nat>)
    requires Implements(decode, env)
    requires op == 0x1f || op == 0x20
    requires Holds(env.section, s.offset, [op]) && s.stack == [env.width.Truncate(x)] + rest
    ensures Moves(decode(s), s, 1, [env.width.Truncate(if op == 0x1f then -x else -1 - x)] + rest)
  {
    DecodeApplies(env, decode, s, op, OpInfo(OpUnary(if op == 0x1f then Neg else Not), 1, []), [], s.offset + 1);
    TruncateNegation(env.width, x);
  }

  lemma DecodePlusUconst(env: Env, decode: Decoder, s: State, c: nat, x: int, rest: seq<nat>)
    requires Implements(decode, env)
    requires c < TWO64 && Holds(env.section, s.offset, [0x23] + EncodeUleb(c))
    requires s.stack == [env.width.Truncate(x)] + rest
    ensures Moves(decode(s), s, 1 + |EncodeUleb(c)|, [env.width.Truncate(x + c)] + rest)
  {
    var next := s.offset + 1 + |EncodeUleb(c)|;
    UlebOperand(env, s.offset, 0x23, c);
    DecodeApplies(env, decode, s, 0x23, OpInfo(OpPlusUconst, 1, [Uleb128]), [env.width.Truncate(c)], next);
    AppliesPlus(env, State(next, s.stack, s.isRegister, 0x23, [env.width.Truncate(c)]), x, c, rest);
  }

  lemma AppliesPlus(env: Env, s: State, x: int, c: nat, rest: seq<nat>)
    requires s.stack == [env.width.Truncate(x)] + rest && s.operands == [env.width.Truncate(c)]
    ensures Apply(env, s, OpPlusUconst) == Next(s.(stack := [env.width.Truncate(x + c)] + rest))
  {
    TruncateSum(env.width, x, c);
  }

  function ArithmeticOf(op: BinaryOp): Arithmetic {
    match op
    case Add => Plus
    case Sub => Minus
    case Times => Mul
    case BitwiseAnd => And
    case BitwiseOr => Or
    case BitwiseXor => Xor
  }

  lemma BinaryIsCombine(w: Width, op: BinaryOp, x: int, y: int)
    ensures Binary(w, ArithmeticOf(op), w.Truncate(x), w.Truncate(y)) == Value(w.Truncate(Combine(w, op, x, y)))
  {
    TruncateSum(w, x, y);
    TruncateProduct(w, x, y);
  }

  lemma DecodeBinary(env: Env, decode: Decoder, s: State, op: BinaryOp, x: int, y: int, rest: seq<nat>)
    requires Implements(decode, env)
    requires Holds(env.section, s.offset, [Opcode(op)])
    requires s.stack == [env.width.Truncate(y), env.width.Truncate(x)] + rest
    ensures Moves(decode(s), s, 1, [env.width.Truncate(Combine(env.width, op, x, y))] + rest)
  {
    DecodeApplies(env, decode, s, Opcode(op), OpInfo(OpBinary(ArithmeticOf(op)), 2, []), [], s.offset + 1);
    BinaryIsCombine(env.width, op, x, y);
  }

  // ---------------------------------------------------------------------------
  // Whole expressions

  lemma {:induction false} StepsAdd(decode: Decoder, s: State, a: nat, t: State, b: nat)
    requires Steps(decode, s, a) == Next(t)
    ensures Steps(decode, s, a + b) == Steps(decode, t, b)
  {
    if b > 0 {
      StepsAdd(decode, s, a, t, b - 1);
    }
  }

  /** The machine runs from `s` to `t` in `n` operations without leaving the bytes before `t`. */
  ghost predicate RunsTo(decode: Decoder, s: State, n: nat, t: State) {
    Steps(decode, s, n) == Next(t) && forall j :: 0 <= j < n ==> Inside(decode, s, t.offset, j)
  }

  lemma RunsOneMore(decode: Decoder, s: State, n: nat, t: State, u: State)
    requires RunsTo(decode, s, n, t) && decode(t) == Next(u) && t.offset < u.offset
    ensures RunsTo(decode, s, n + 1, u)
  {
    forall j | 0 <= j < n + 1
      ensures Inside(decode, s, u.offset, j)
    {
      assert j < n ==> Inside(decode, s, t.offset, j);
    }
  }

  lemma RunsOn(decode: Decoder, s: State, n: nat, t: State, m: nat, u: State)
    requires RunsTo(decode, s, n, t) && RunsTo(decode, t, m, u) && t.offset < u.offset
    ensures RunsTo(decode, s, n + m, u)
  {
    StepsAdd(decode, s, n, t, m);
    forall j | 0 <= j < n + m
      ensures Inside(decode, s, u.offset, j)
    {
      if j < n {
        assert Inside(decode, s, t.offset, j);
      } else {
        StepsAdd(decode, s, n, t, j - n);
        assert Inside(decode, t, u.offset, j - n);
      }
    }
  }

  /** The bytes of `e` push its value and do nothing else. */
  ghost predicate Pushes(env: Env, decode: Decoder, s: State, e: Expr, t: State)
    requires Encodable(e, |env.regs|)
  {
    && RunsTo(decode, s, Ops(e), t)
    && t.offset == s.offset + |Compile(e)|
    && t.stack == [env.width.Truncate(Meaning(env.width, env.regs, e))] + s.stack
    && t.isRegister == s.isRegister
  }

  lemma LeafPushes(env: Env, decode: Decoder, s: State, e: Expr) returns (t: State)
    requires Implements(decode, env) && (e.Lit? || e.Constu? || e.Consts? || e.Breg?)
    requires Encodable(e, |env.regs|) && Holds(env.section, s.offset, Compile(e))
    ensures Pushes(env, decode, s, e, t)
  {
    match e {
      case Lit(n) => DecodeLit(env, decode, s, n);
      case Constu(c) => DecodeConstu(env, decode, s, c);
      case Consts(v) => DecodeConsts(env, decode, s, v);
      case Breg(reg, delta) =>
        if reg < 32 {
          DecodeBreg(env, decode, s, reg, delta);
        } else {
          DecodeBregx(env, decode, s, reg, delta);
        }
    }
    t := decode(s).state;
    RunsOneMore(decode, s, 0, s, t);
  }

  lemma NegatePushes(env: Env, decode: Decoder, s: State, e: Expr, m: State) returns (t: State)
    requires Implements(decode, env) && Encodable(e, |env.regs|) && Pushes(env, decode, s, e, m)
    requires Holds(env.section, m.offset, [0x1f])
    ensures Pushes(env, decode, s, Negate(e), t)
  {
    DecodeUnary(env, decode, m, 0x1f, Meaning(env.width, env.regs, e), s.stack);
    t := decode(m).state;
    RunsOneMore(decode, s, Ops(e), m, t);
  }

  lemma ComplementedPushes(env: Env, decode: Decoder, s: State, e: Expr, m: State) returns (t: State)
    requires Implements(decode, env) && Encodable(e, |env.regs|) && Pushes(env, decode, s, e, m)
    requires Holds(env.section, m.offset, [0x20])
    ensures Pushes(env, decode, s, Complemented(e), t)
  {
    DecodeUnary(env, decode, m, 0x20, Meaning(env.width, env.regs, e), s.stack);
    t := decode(m).state;
    RunsOneMore(decode, s, Ops(e), m, t);
  }

  lemma PlusPushes(env: Env, decode: Decoder, s: State, e: Expr, c: nat, m: State) returns (t: State)
    requires Implements(decode, env) && Encodable(PlusUconst(e, c), |env.regs|) && Pushes(env, decode, s, e, m)
    requires Holds(env.section, m.offset, [0x23] + EncodeUleb(c))
    ensures Pushes(env, decode, s, PlusUconst(e, c), t)
  {
    DecodePlusUconst(env, decode, m, c, Meaning(env.width, env.regs, e), s.stack);
    t := decode(m).state;
    RunsOneMore(decode, s, Ops(e), m, t);
  }

  lemma {:induction false} CompiledPushes(env: Env, decode: Decoder, s: State, e: Expr) returns (t: State)
    requires Implements(decode, env)
    requires Encodable(e, |env.regs|) && Holds(env.section, s.offset, Compile(e))
    ensures Pushes(env, decode, s, e, t)
    decreases e
  {
    match e {
      case Negate(e1) =>
        HoldsParts(env.section, s.offset, Compile(e1), [0x1f]);
        var m := CompiledPushes(env, decode, s, e1);
        t := NegatePushes(env, decode, s, e1, m);
      case Complemented(e1) =>
        HoldsParts(env.section, s.offset, Compile(e1), [0x20]);
        var m := CompiledPushes(env, decode, s, e1);
        t := ComplementedPushes(env, decode, s, e1, m);
      case PlusUconst(e1, c) =>
        HoldsParts(env.section, s.offset, Compile(e1), [0x23] + EncodeUleb(c));
        var m := CompiledPushes(env, decode, s, e1);
        t := PlusPushes(env, decode, s, e1, c, m);
      case Bin(op, left, right) =>
        t := BinaryPushes(env, decode, s, op, left, right);
      case _ =>
        t := LeafPushes(env, decode, s, e);
    }
  }

  lemma {:induction false} BinaryPushes(env: Env, decode: Decoder, s: State, op: BinaryOp, left: Expr, right: Expr)
    returns (t: State)
    requires Implements(decode, env)
    requires Encodable(Bin(op, left, right), |env.regs|)
    requires Holds(env.section, s.offset, Compile(Bin(op, left, right)))
    ensures Pushes(env, decode, s, Bin(op, left, right), t)
    decreases Bin(op, left, right), 0
  {
    HoldsParts(env.section, s.offset, Compile(left), Compile(right) + [Opcode(op)]);
    HoldsParts(env.section, s.offset + |Compile(left)|, Compile(right), [Opcode(op)]);
    var x, y := Meaning(env.width, env.regs, left), Meaning(env.width, env.regs, right);
    var m := CompiledPushes(env, decode, s, left);
    var m' := CompiledPushes(env, decode, m, right);
    RunsOn(decode, s, Ops(left), m, Ops(right), m');
    assert m'.stack == [env.width.Truncate(y), env.width.Truncate(x)] + s.stack;
    DecodeBinary(env, decode, m', op, x, y, s.stack);
    t := decode(m').state;
    RunsOneMore(decode, s, Ops(left) + Ops(right), m', t);
  }

  /** A successful evaluation to the single value `v`. */
  predicate EvaluatesTo(r: Outcome, v: nat) {
    r.Done? && !r.state.isRegister && r.state.stack == [v]
  }

  lemma CompiledEvaluates(env: Env, decode: Decoder, start: nat, e: Expr)
    requires Implements(decode, env)
    requires Encodable(e, |env.regs|) && Ops(e) <= 1000 && Holds(env.section, start, Compile(e))
    ensures EvaluatesTo(EvalWith(decode, start, start + |Compile(e)|),
                        env.width.Truncate(Meaning(env.width, env.regs, e)))
  {
    var t := CompiledPushes(env, decode, Start(start), e);
    LeavingSucceeds(decode, start, t.offset, Ops(e), t);
  }

  /** `Eval` on the postfix encoding of an expression of at most 1000 operations succeeds with
      exactly one value: the expression's, modulo the address width. */
  lemma EvalPreservesMeaning(env: Env, start: nat, e: Expr)
    requires Encodable(e, |env.regs|) && Ops(e) <= 1000 && Holds(env.section, start, Compile(e))
    ensures EvaluatesTo(Eval(env, start, start + |Compile(e)|),
                        env.width.Truncate(Meaning(env.width, env.regs, e)))
  {
    CompiledEvaluates(env, s => Decode(env, s), start, e);
  }

  // ---------------------------------------------------------------------------
  // The dex pc marker

  /** DW_OP_const4u 'DEX1', DW_OP_drop, DW_OP_lit. */
  function Marked(n: nat): seq<byte>
    requires n < 32
  {
    [0x0c, 0x44, 0x45, 0x58, 0x31] + ([0x13] + [0x30 + n])
  }

  lemma MarkedParts(env: Env, start: nat, n: nat)
    requires n < 32 && Holds(env.section, start, Marked(n))
    ensures Holds(env.section, start, [0x0c, 0x44, 0x45, 0x58, 0x31])
    ensures Holds(env.section, start + 5, [0x13]) && Holds(env.section, start + 6, [0x30 + n])
  {
    HoldsParts(env.section, start, [0x0c, 0x44, 0x45, 0x58, 0x31], [0x13] + [0x30 + n]);
    HoldsParts(env.section, start + 5, [0x13], [0x30 + n]);
  }

  lemma {:induction false} ReadsHeld(memory: Memory, offset: nat, bytes: seq<byte>)
    requires Holds(memory, offset, bytes)
    ensures ReadFully(memory, offset, |bytes|) == Some(bytes)
    decreases |bytes|
  {
    if bytes != [] {
      ReadsHeld(memory, offset + 1, bytes[1..]);
      assert bytes == [bytes[0]] + bytes[1..];
    }
  }

  lemma Dex1Bytes()
    ensures LittleEndian([0x44, 0x45, 0x58, 0x31]) == DEX1
  {
    assert [0x44, 0x45, 0x58, 0x31][1..] == [0x45, 0x58, 0x31] && [0x45, 0x58, 0x31][1..] == [0x58, 0x31];
    assert [0x58, 0x31][1..] == [0x31] && [0x31][1..] == [];
    assert LittleEndian([0x31]) == 0x31 && LittleEndian([0x58, 0x31]) == 0x3158;
    assert LittleEndian([0x45, 0x58, 0x31]) == 0x315845;
  }

  lemma DecodeDex1(env: Env, decode: Decoder, s: State)
    requires Implements(decode, env)
    requires Holds(env.section, s.offset, [0x0c, 0x44, 0x45, 0x58, 0x31])
    ensures decode(s) == Next(State(s.offset + 5, [DEX1] + s.stack, s.isRegister, 0x0c, [DEX1]))
  {
    var bytes := [0x44, 0x45, 0x58, 0x31];
    assert [0x0c, 0x44, 0x45, 0x58, 0x31] == [0x0c] + bytes;
    HoldsParts(env.section, s.offset, [0x0c], bytes);
    ReadsHeld(env.section, s.offset + 1, bytes);
    Dex1Bytes();
    OneOperand(env, s.offset + 1, Udata(4));
    DecodePush(env, decode, s, 0x0c, Udata(4), DEX1, s.offset + 5);
  }

  /** A marked expression gives its literal and the dex pc flag. */
  lemma MarkedEvaluates(env: Env, start: nat, end: nat, n: nat) returns (s: State)
    requires n < 32 && end == start + 7 && Holds(env.section, start, Marked(n))
    ensures Eval(env, start, end) == Done(s, true) && s.stack == [n] && !s.isRegister
  {
    var decode: Decoder := s => Decode(env, s);
    MarkedParts(env, start, n);
    DecodeDex1(env, decode, Start(start));
    var s1 := State(start + 5, [DEX1], false, 0x0c, [DEX1]);
    assert [DEX1] + [] == [DEX1];
    DecodeDrop(env, decode, s1);
    var s2 := State(start + 6, [], false, 0x13, []);
    DecodeLit(env, decode, s2, n);
    SmallResidue(env.width, n);
    ThreeOperations(decode, start, end, s1, s2);
    s := decode(s2).state;
  }

  lemma ThreeOperations(decode: Decoder, start: nat, end: nat, s1: State, s2: State)
    requires start < end && decode(Start(start)) == Next(s1)
    requires s1.offset < end && decode(s1) == Next(s2)
    requires s2.offset < end && decode(s2).Next? && decode(s2).state.offset >= end
    ensures EvalWith(decode, start, end) == Done(decode(s2).state, PushesDex1(s1) && s2.curOp == 0x13)
  {
    var dex := PushesDex1(s1) && s2.curOp == 0x13;
    assert Loop(decode, decode(s2).state, end, 3, dex) == Done(decode(s2).state, dex);
  }

  // ---------------------------------------------------------------------------
  // A branch that is not taken

  /** DW_OP_lit0, DW_OP_bra over one byte, DW_OP_lit1. */
  const Untaken: seq<byte> := [0x30] + ([0x28, 0x01, 0x00] + [0x31])

  lemma DecodeUntaken(env: Env, decode: Decoder, s: State)
    requires Implements(decode, env) && s.offset + 4 < TWO64
    requires Holds(env.section, s.offset, [0x28, 0x01, 0x00]) && s.stack == [0]
    ensures decode(s).Next? && decode(s).state.offset == s.offset + 2
  {
    assert [0x28, 0x01, 0x00] == [0x28] + [0x01, 0x00];
    HoldsParts(env.section, s.offset, [0x28], [0x01, 0x00]);
    ReadsHeld(env.section, s.offset + 1, [0x01, 0x00]);
    OneAsTwoBytes();
    OneOperand(env, s.offset + 1, Sdata(2));
    SmallResidue(env.width, 1);
    BranchesBack(env, decode, s);
  }

  lemma OneAsTwoBytes()
    ensures LittleEndian([0x01, 0x00]) == 1
  {
    assert [0x01, 0x00][1..] == [0x00] && [0x00][1..] == [];
    assert LittleEndian([0x00]) == 0;
  }

  lemma BranchesBack(env: Env, decode: Decoder, s: State)
    requires Implements(decode, env) && s.offset + 4 < TWO64 && s.stack == [0]
    requires s.offset in env.section && env.section[s.offset] == 0x28
    requires ReadOperands(env.width, env.section, s.offset + 1, [Sdata(2)]) == Got([1], s.offset + 3)
    ensures decode(s).Next? && decode(s).state.offset == s.offset + 2
  {
    var info := OpInfo(OpBra, 1, [Sdata(2)]);
    DecodeApplies(env, decode, s, 0x28, info, [1], s.offset + 3);
    UntakenGoesBack(env, State(s.offset + 3, s.stack, s.isRegister, 0x28, [1]));
  }

  lemma UntakenGoesBack(env: Env, s: State)
    requires s.stack == [0] && s.operands == [1] && 0 < s.offset < TWO64
    ensures Apply(env, s, OpBra).Next? && Apply(env, s, OpBra).state.offset == s.offset - 1
  {
  }

  lemma UntakenParts(section: Memory, start: nat)
    requires Holds(section, start, Untaken)
    ensures Holds(section, start, [0x30]) && Holds(section, start + 1, [0x28, 0x01, 0x00])
    ensures start + 3 in section && section[start + 3] == 0x00 && start + 5 < TWO64
  {
    HoldsParts(section, start, [0x30], [0x28, 0x01, 0x00] + [0x31]);
    HoldsParts(section, start + 1, [0x28, 0x01, 0x00], [0x31]);
    HoldsParts(section, start + 1, [0x28, 0x01], [0x00]);
  }

  /** The last byte of the operand of the branch is taken for an operation. */
  lemma UntakenBranchFails(env: Env, start: nat)
    requires Holds(env.section, start, Untaken)
    ensures Eval(env, start, start + 5) == Failed(IllegalValue)
  {
    var decode: Decoder := s => Decode(env, s);
    UntakenParts(env.section, start);
    DecodeLit(env, decode, Start(start), 0);
    SmallResidue(env.width, 0);
    var s1 := decode(Start(start)).state;
    assert s1.stack == [0];
    DecodeUntaken(env, decode, s1);
    var s2 := decode(s1).state;
    DecodeIsDecodeAs(env, decode, s2, 0x00, OpInfo(OpIllegal, 0, []));
    ThirdFails(decode, start, start + 5, s1, s2);
  }

  lemma ThirdFails(decode: Decoder, start: nat, end: nat, s1: State, s2: State)
    requires start < end && decode(Start(start)) == Next(s1)
    requires s1.offset < end && decode(s1) == Next(s2)
    requires s2.offset < end && decode(s2) == Fail(IllegalValue)
    ensures EvalWith(decode, start, end) == Failed(IllegalValue)
  {
  }
}
