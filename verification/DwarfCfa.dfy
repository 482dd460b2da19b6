/**
 The call frame instruction interpreter (DwarfCfa.cpp): a CIE or FDE program is run until
 the location passes the wanted pc, and the register rules then in force are a row of the
 table described in section 6.4.2 of DWARF 4.
 */
module DwarfCfa {
  import opened Basics

  /** The key under which the rule for the canonical frame address is kept. */
  const CFA_REG: nat := 0xffff

  datatype Location =
    | Undefined
    | Offset(offset: nat)
    | ValOffset(offset: nat)
    | Register(reg: nat, offset: nat)
    | Expression(length: nat, end: nat)
    | ValExpression(length: nat, end: nat)

  type Rules = map<nat, Location>

  /** One decoded instruction. Operands are the uint64_t values read from the section; for an
      expression, `end` is the read offset just after its block. */
  datatype Instruction =
    | Nop
    | SetLoc(pc: nat)
    | AdvanceLoc(delta: nat)
    | OffsetScaled(reg: nat, operand: nat)
    | OffsetExtended(reg: nat, operand: nat)
    | Restore(reg: nat)
    | UndefinedReg(reg: nat)
    | SameValue(reg: nat)
    | RegisterIn(reg: nat, source: nat)
    | RememberState
    | RestoreState
    | DefCfa(reg: nat, operand: nat)
    | DefCfaRegister(reg: nat)
    | DefCfaOffset(operand: nat)
    | DefCfaExpression(length: nat, end: nat)
    | ExpressionReg(reg: nat, length: nat, end: nat)
    | OffsetExtendedSf(reg: nat, operand: nat)
    | DefCfaSf(reg: nat, operand: nat)
    | DefCfaOffsetSf(operand: nat)
    | ValOffsetReg(reg: nat, operand: nat)
    | ValExpressionReg(reg: nat, length: nat, end: nat)
    | GnuNegativeOffset(reg: nat, operand: nat)
    | Illegal
    | Unreadable

  datatype Cie = Cie(codeAlign: nat, dataAlign: int, returnReg: nat, program: seq<Instruction>)

  datatype Fde = Fde(pcStart: nat, pcEnd: nat, cieOffset: nat, cie: Cie, program: seq<Instruction>)

  /** The part of `dwarf_loc_regs_t` that instructions can see and `cfa_remember_state` copies. */
  datatype Row = Row(rules: Rules, pcStart: nat)

  /** A finished row: its rules hold for the pcs in [pcStart, pcEnd). */
  datatype LocRegs = LocRegs(rules: Rules, pcStart: nat, pcEnd: nat)

  /** What one `GetLocationInfo` call works with. `cieRules` is None while a CIE is processed. */
  datatype Context = Context(width: Width, fde: Fde, cieRules: Option<Rules>)

  /** The interpreter's state; the last element of `states` is the top of `loc_reg_state_`. */
  datatype Machine = Machine(curPc: nat, row: Row, states: seq<Row>)

  /** Rule maps are keyed by uint32_t. */
  function Key(reg: nat): nat {
    reg % TWO32
  }

  function Scaled(c: Context, operand: nat): nat {
    c.width.SignExtend(c.width.Signed(operand) * c.fde.cie.dataAlign)
  }

  function SetRule(m: Machine, reg: nat, location: Location): Machine {
    m.(row := m.row.(rules := m.row.rules[Key(reg) := location]))
  }

  function EraseRule(m: Machine, reg: nat): Machine {
    m.(row := m.row.(rules := m.row.rules - {Key(reg)}))
  }

  predicate CfaIsRegister(m: Machine) {
    CFA_REG in m.row.rules && m.row.rules[CFA_REG].Register?
  }

  /** Instructions that set one rule outright, whatever the rules were. */
  predicate SetsRule(i: Instruction) {
    match i
    case OffsetScaled(_, _) | OffsetExtended(_, _) | OffsetExtendedSf(_, _) | GnuNegativeOffset(_, _) => true
    case UndefinedReg(_) | RegisterIn(_, _) | ValOffsetReg(_, _) => true
    case ExpressionReg(_, _, _) | ValExpressionReg(_, _, _) => true
    case DefCfa(_, _) | DefCfaSf(_, _) | DefCfaExpression(_, _) => true
    case _ => false
  }

  /** The rule such an instruction sets. DW_CFA_offset_extended is not scaled. */
  function RuleOf(c: Context, i: Instruction): (nat, Location)
    requires SetsRule(i)
  {
    match i
    case OffsetScaled(reg, operand) => (reg, Offset(Scaled(c, operand)))
    case OffsetExtended(reg, operand) => (reg, Offset(c.width.Truncate(operand)))
    case OffsetExtendedSf(reg, operand) => (reg, Offset(Scaled(c, operand)))
    case GnuNegativeOffset(reg, operand) => (reg, Offset(c.width.SignExtend(-c.width.Signed(operand))))
    case UndefinedReg(reg) => (reg, Undefined)
    case RegisterIn(reg, source) => (reg, Register(c.width.Truncate(source), 0))
    case ValOffsetReg(reg, operand) => (reg, ValOffset(Scaled(c, operand)))
    case ExpressionReg(reg, length, end) => (reg, Expression(c.width.Truncate(length), end))
    case ValExpressionReg(reg, length, end) => (reg, ValExpression(c.width.Truncate(length), end))
    case DefCfa(reg, operand) => (CFA_REG, Register(c.width.Truncate(reg), c.width.Truncate(operand)))
    case DefCfaSf(reg, operand) => (CFA_REG, Register(c.width.Truncate(reg), Scaled(c, operand)))
    case DefCfaExpression(length, end) => (CFA_REG, ValExpression(c.width.Truncate(length), end))
  }

  /** The unscaled offset is the factored one of section 6.4.2.3 of DWARF 4: the factor makes no
      difference to the operand. Where addresses have 32 bits, only factored offsets are sign
      extended. */
  predicate FactorMakesNoDifference(c: Context, operand: nat) {
    && operand * (c.fde.cie.dataAlign - 1) % c.width.Modulus() == 0
    && (c.width.W32? ==> 2 * c.width.Truncate(operand) < TWO32)
  }

  lemma SignExtendIsResidue(w: Width, x: int, v: nat)
    ensures w.SignExtend(x) == w.Truncate(v)
       <==> w.Truncate(x) == w.Truncate(v) && (w.W32? ==> 2 * w.Truncate(v) < TWO32)
  {
    SignedResidue(w, x);
  }

  lemma SameResidueExactly(w: Width, a: int, b: int)
    ensures w.Truncate(a) == w.Truncate(b) <==> (a - b) % w.Modulus() == 0
  {
    var m: int := w.Modulus();
    assert a == m * (a / m) + w.Truncate(a) && b == m * (b / m) + w.Truncate(b);
    assert m * (a / m - b / m) == m * (a / m) - m * (b / m);
    SameResidue(w, a - b, w.Truncate(a) - w.Truncate(b), a / m - b / m);
  }

  lemma ScaledResidue(c: Context, operand: nat)
    ensures c.width.Truncate(c.width.Signed(operand) * c.fde.cie.dataAlign)
         == c.width.Truncate(operand * c.fde.cie.dataAlign)
  {
    var w, d := c.width, c.fde.cie.dataAlign;
    var s: int := w.Signed(operand);
    SignedResidue(w, operand);
    SameResidueExactly(w, s, operand);
    var k := (s - operand) / w.Modulus();
    assert s == operand + w.Modulus() * k;
    assert s * d == operand * d + w.Modulus() * (k * d) by {
      assert (w.Modulus() * k) * d == w.Modulus() * (k * d);
      assert s * d == operand * d + (w.Modulus() * k) * d;
    }
    SameResidue(w, s * d, operand * d, k * d);
  }

  /** DW_CFA_offset_extended sets the rule of DW_CFA_offset exactly when the factor makes no
      difference. */
  lemma OffsetExtendedIsFactoredExactly(c: Context, reg: nat, operand: nat)
    ensures RuleOf(c, OffsetExtended(reg, operand)) == RuleOf(c, OffsetScaled(reg, operand))
       <==> FactorMakesNoDifference(c, operand)
  {
    var w, d := c.width, c.fde.cie.dataAlign;
    SignExtendIsResidue(w, w.Signed(operand) * d, operand);
    ScaledResidue(c, operand);
    SameResidueExactly(w, operand * d, operand);
    assert operand * d - operand == operand * (d - 1);
  }

  /** With the usual factor of -8, operand 2 should stand for the word 16 below the frame address. */
  lemma OffsetExtendedIsNotFactored()
    ensures
      var c := Context(W64, Fde(0, 16, 0, Cie(1, -8, 0, []), []), Some(map[]));
      && RuleOf(c, OffsetExtended(6, 2)) == (6, Offset(2))
      && RuleOf(c, OffsetScaled(6, 2)) == (6, Offset(TWO64 - 16))
  {
  }

  /** The effect of one instruction. */
  function Exec(c: Context, m: Machine, i: Instruction): Result<Machine> {
    match i
    case Nop => Success(m)
    case SetLoc(pc) => Success(m.(curPc := c.width.Truncate(pc)))
    case AdvanceLoc(delta) => Success(m.(curPc := c.width.Truncate(m.curPc + delta * c.fde.cie.codeAlign)))
    case Restore(reg) =>
      if c.cieRules.None? then Failure(IllegalState)
      else if Key(reg) in c.cieRules.value then Success(SetRule(m, reg, c.cieRules.value[Key(reg)]))
      else Success(EraseRule(m, reg))
    case SameValue(reg) => Success(EraseRule(m, reg))
    case RememberState => Success(m.(states := m.states + [m.row]))
    case RestoreState =>
      if m.states == [] then Success(m)
      else Success(m.(row := m.states[|m.states| - 1], states := m.states[..|m.states| - 1]))
    case DefCfaRegister(reg) =>
      if CfaIsRegister(m)
      then Success(SetRule(m, CFA_REG, Register(c.width.Truncate(reg), m.row.rules[CFA_REG].offset)))
      else Failure(IllegalState)
    case DefCfaOffset(operand) =>
      if CfaIsRegister(m)
      then Success(SetRule(m, CFA_REG, Register(m.row.rules[CFA_REG].reg, c.width.Truncate(operand))))
      else Failure(IllegalState)
    case DefCfaOffsetSf(operand) =>
      if CfaIsRegister(m)
      then Success(SetRule(m, CFA_REG, Register(m.row.rules[CFA_REG].reg, Scaled(c, operand))))
      else Failure(IllegalState)
    case Illegal => Failure(IllegalValue)
    case Unreadable => Failure(MemoryInvalid)
    case _ =>
      var rule := RuleOf(c, i);
      Success(SetRule(m, rule.0, rule.1))
  }

  /** `pc_start` is refreshed each time a further instruction is read. */
  function Refresh(m: Machine): Machine {
    m.(row := m.row.(pcStart := m.curPc))
  }

  /** The machine after the first `n` instructions, whatever pc is wanted. */
  function After(c: Context, program: seq<Instruction>, m: Machine, n: nat): Result<Machine>
    requires n <= |program|
  {
    if n == 0 then Success(m)
    else
      var before :- After(c, program, m, n - 1);
      Exec(c, Refresh(before), program[n - 1])
  }

  /** The loop of `GetLocationInfo` from instruction `i` on: the final machine and `pc_end`. */
  function Run(c: Context, program: seq<Instruction>, i: nat, m: Machine, pc: nat): Result<(Machine, nat)>
    requires i <= |program|
    decreases |program| - i
  {
    if m.curPc > pc then Success((m, m.curPc))
    else if i == |program| then Success((m, c.fde.pcEnd))
    else
      var next :- Exec(c, Refresh(m), program[i]);
      Run(c, program, i + 1, next, pc)
  }

  /** The machine with which `GetLocationInfo` enters its loop. */
  function Enter(c: Context, rules: Rules, states: seq<Row>): Machine {
    var start := c.width.Truncate(c.fde.pcStart);
    var merged := if c.cieRules.Some? then rules + c.cieRules.value else rules;
    Machine(start, Row(merged, start), states)
  }

  /** The row a finished machine stands for. */
  function Finish(m: Machine, pcEnd: nat): LocRegs {
    LocRegs(m.row.rules, m.row.pcStart, pcEnd)
  }

  // ---------------------------------------------------------------------------
  // Locations

  function NextLoc(c: Context, loc: nat, i: Instruction): nat {
    match i
    case SetLoc(pc) => c.width.Truncate(pc)
    case AdvanceLoc(delta) => c.width.Truncate(loc + delta * c.fde.cie.codeAlign)
    case _ => loc
  }

  /** The location reached after `n` instructions; it does not depend on the rules. */
  function LocAt(c: Context, program: seq<Instruction>, start: nat, n: nat): nat
    requires n <= |program|
  {
    if n == 0 then start else NextLoc(c, LocAt(c, program, start, n - 1), program[n - 1])
  }

  predicate StaysOrAdvances(c: Context, program: seq<Instruction>, start: nat, n: nat)
    requires n < |program|
  {
    LocAt(c, program, start, n) <= LocAt(c, program, start, n + 1)
  }

  /** Locations never decrease. */
  predicate Ascending(c: Context, program: seq<Instruction>, start: nat) {
    forall n :: 0 <= n < |program| ==> StaysOrAdvances(c, program, start, n)
  }

  lemma {:induction false} AscendingRange(c: Context, program: seq<Instruction>, start: nat, i: nat, j: nat)
    requires Ascending(c, program, start) && i <= j <= |program|
    ensures LocAt(c, program, start, i) <= LocAt(c, program, start, j)
    decreases j - i
  {
    if i < j {
      AscendingRange(c, program, start, i, j - 1);
      assert StaysOrAdvances(c, program, start, j - 1);
    }
  }

  /** The number of instructions executed when `pc` is wanted. */
  function Stop(c: Context, program: seq<Instruction>, start: nat, i: nat, pc: nat): (k: nat)
    requires i <= |program|
    ensures i <= k <= |program|
    ensures k < |program| ==> LocAt(c, program, start, k) > pc
    ensures forall n :: i <= n < k ==> LocAt(c, program, start, n) <= pc
    decreases |program| - i
  {
    if LocAt(c, program, start, i) > pc || i == |program| then i
    else Stop(c, program, start, i + 1, pc)
  }

  lemma {:induction false} AfterLocation(c: Context, program: seq<Instruction>, m: Machine, n: nat)
    requires n <= |program| && After(c, program, m, n).Success?
    ensures After(c, program, m, n).value.curPc == LocAt(c, program, m.curPc, n)
  {
    if n > 0 {
      AfterLocation(c, program, m, n - 1);
    }
  }

  lemma {:induction false} AfterPrefix(c: Context, program: seq<Instruction>, m: Machine, i: nat, n: nat)
    requires i <= n <= |program| && After(c, program, m, n).Success?
    ensures After(c, program, m, i).Success?
    decreases n - i
  {
    if i < n {
      AfterPrefix(c, program, m, i, n - 1);
    }
  }

  lemma {:induction false} RunStep(c: Context, program: seq<Instruction>, m: Machine, i: nat, pc: nat)
    requires i < |program| && After(c, program, m, i).Success? && After(c, program, m, i).value.curPc <= pc
    ensures
      var r := Run(c, program, i, After(c, program, m, i).value, pc);
      match After(c, program, m, i + 1)
      case Success(next) => r == Run(c, program, i + 1, next, pc)
      case Failure(error) => r == Failure(error)
  {
  }

  /** `Run` is exactly: execute up to the stopping point, then close the row there. */
  lemma {:induction false} RunIsAfterStop(c: Context, program: seq<Instruction>, m: Machine, i: nat, pc: nat)
    requires i <= |program| && After(c, program, m, i).Success?
    ensures
      var k := Stop(c, program, m.curPc, i, pc);
      var r := Run(c, program, i, After(c, program, m, i).value, pc);
      match After(c, program, m, k)
      case Success(last) =>
        r == Success((last, if last.curPc > pc then last.curPc else c.fde.pcEnd))
      case Failure(_) => r.Failure?
    decreases |program| - i
  {
    AfterLocation(c, program, m, i);
    if LocAt(c, program, m.curPc, i) <= pc && i < |program| {
      RunStep(c, program, m, i, pc);
      if After(c, program, m, i + 1).Success? {
        RunIsAfterStop(c, program, m, i + 1, pc);
      } else {
        var k := Stop(c, program, m.curPc, i, pc);
        if After(c, program, m, k).Success? {
          AfterPrefix(c, program, m, i + 1, k);
        }
      }
    }
  }

  // ---------------------------------------------------------------------------
  // Row validity

  /** The rules in force at `pc`. */
  function RulesAt(c: Context, program: seq<Instruction>, m: Machine, pc: nat): Result<Rules> {
    var r :- Run(c, program, 0, m, pc);
    Success(r.0.row.rules)
  }

  /** The rules a row claims for its whole range really are in force there. */
  ghost predicate RowValid(c: Context, program: seq<Instruction>, m: Machine, row: LocRegs) {
    forall pc :: row.pcStart <= pc < row.pcEnd ==> RulesAt(c, program, m, pc) == Success(row.rules)
  }

  predicate RulesAfter(c: Context, program: seq<Instruction>, m: Machine, n: nat, rules: Rules)
    requires n <= |program|
  {
    var r := After(c, program, m, n);
    r.Success? && r.value.row.rules == rules
  }

  lemma {:induction false} RulesAtStop(c: Context, program: seq<Instruction>, m: Machine, pc: nat)
    ensures
      match After(c, program, m, Stop(c, program, m.curPc, 0, pc))
      case Success(last) => RulesAt(c, program, m, pc) == Success(last.row.rules)
      case Failure(_) => RulesAt(c, program, m, pc).Failure?
  {
    RunIsAfterStop(c, program, m, 0, pc);
  }

  /** The remember_state instructions whose state is on the stack after `n` instructions. */
  function Remembered(program: seq<Instruction>, n: nat): (marks: seq<nat>)
    requires n <= |program|
    ensures forall i :: 0 <= i < |marks| ==> marks[i] < n && program[marks[i]].RememberState?
  {
    if n == 0 then []
    else
      var before := Remembered(program, n - 1);
      match program[n - 1]
      case RememberState => before + [n - 1]
      case RestoreState => if before == [] then [] else before[..|before| - 1]
      case _ => before
  }

  /** The `n`-th instruction is a restore_state that finds something to restore. */
  predicate Restores(program: seq<Instruction>, n: nat)
    requires 0 < n <= |program|
  {
    program[n - 1].RestoreState? && Remembered(program, n - 1) != []
  }

  /** The instruction at whose location a row closed after `n` instructions starts: the last one,
      or the remember_state that the last one goes back to. */
  function Origin(program: seq<Instruction>, n: nat): (a: nat)
    requires n <= |program|
    ensures a <= n && (n > 0 ==> a < n)
  {
    if n == 0 then 0
    else if Restores(program, n) then
      var marks := Remembered(program, n - 1);
      marks[|marks| - 1]
    else n - 1
  }

  /** The state saved by the remember_state at `a`. */
  predicate SavedAt(c: Context, program: seq<Instruction>, m: Machine, a: nat, saved: Row)
    requires a <= |program|
  {
    RulesAfter(c, program, m, a, saved.rules) && saved.pcStart == LocAt(c, program, m.curPc, a)
  }

  lemma {:induction false} StackIsRemembered(c: Context, program: seq<Instruction>, m: Machine, n: nat)
    requires n <= |program| && m.states == [] && After(c, program, m, n).Success?
    ensures
      var states := After(c, program, m, n).value.states;
      var marks := Remembered(program, n);
      |states| == |marks| && forall i :: 0 <= i < |states| ==> SavedAt(c, program, m, marks[i], states[i])
  {
    if n > 0 {
      StackIsRemembered(c, program, m, n - 1);
      AfterLocation(c, program, m, n - 1);
      var before := After(c, program, m, n - 1).value;
      ExecStates(c, Refresh(before), program[n - 1]);
      assert SavedAt(c, program, m, n - 1, Refresh(before).row);
    }
  }

  lemma ExecStates(c: Context, m: Machine, i: Instruction)
    requires Exec(c, m, i).Success?
    ensures
      var states := Exec(c, m, i).value.states;
      if i.RememberState? then states == m.states + [m.row]
      else if i.RestoreState? && m.states != [] then states == m.states[..|m.states| - 1]
      else states == m.states
  {
  }

  lemma ExecKeepsStart(c: Context, m: Machine, i: Instruction)
    requires Exec(c, m, i).Success? && (i.RestoreState? ==> m.states == [])
    ensures Exec(c, m, i).value.row.pcStart == m.row.pcStart
  {
  }

  lemma ExecRestores(c: Context, m: Machine, i: Instruction)
    requires i.RestoreState? && m.states != []
    ensures Exec(c, m, i).Success? && Exec(c, m, i).value.row == m.states[|m.states| - 1]
  {
  }

  /** Where a row starts, and what a restored one holds, told from the program alone. */
  lemma StartIsOrigin(c: Context, program: seq<Instruction>, m: Machine, n: nat)
    requires n <= |program| && m.row.pcStart == m.curPc && m.states == [] && After(c, program, m, n).Success?
    ensures
      var last := After(c, program, m, n).value;
      && last.row.pcStart == LocAt(c, program, m.curPc, Origin(program, n))
      && (n > 0 && Restores(program, n) ==> RulesAfter(c, program, m, Origin(program, n), last.row.rules))
  {
    if n > 0 {
      StackIsRemembered(c, program, m, n - 1);
      AfterLocation(c, program, m, n - 1);
      var before := Refresh(After(c, program, m, n - 1).value);
      if Restores(program, n) {
        ExecRestores(c, before, program[n - 1]);
        assert SavedAt(c, program, m, Origin(program, n), before.states[|before.states| - 1]);
      } else {
        ExecKeepsStart(c, before, program[n - 1]);
      }
    }
  }

  /** The highest location before the `n`-th instruction. */
  function Floor(c: Context, program: seq<Instruction>, start: nat, n: nat): (high: nat)
    requires n <= |program|
    ensures forall j :: 0 <= j < n ==> LocAt(c, program, start, j) <= high
  {
    if n == 0 then 0
    else
      var high := Floor(c, program, start, n - 1);
      var loc := LocAt(c, program, start, n - 1);
      if loc > high then loc else high
  }

  lemma {:induction false} FloorIsLeast(c: Context, program: seq<Instruction>, start: nat, n: nat, pc: nat)
    requires n <= |program| && forall j :: 0 <= j < n ==> LocAt(c, program, start, j) <= pc
    ensures Floor(c, program, start, n) <= pc
  {
    if n > 0 {
      FloorIsLeast(c, program, start, n - 1, pc);
    }
  }

  /** The pcs for which the interpreter stops before the `n`-th instruction. */
  lemma StopExactly(c: Context, program: seq<Instruction>, start: nat, n: nat, pc: nat)
    requires n < |program|
    ensures Stop(c, program, start, 0, pc) == n
       <==> Floor(c, program, start, n) <= pc < LocAt(c, program, start, n)
  {
    var k := Stop(c, program, start, 0, pc);
    if k == n {
      FloorIsLeast(c, program, start, n, pc);
    }
  }

  /** Where the row for `pc` ends. */
  function RowEnd(c: Context, program: seq<Instruction>, start: nat, pc: nat): nat {
    var loc := LocAt(c, program, start, Stop(c, program, start, 0, pc));
    if loc > pc then loc else c.fde.pcEnd
  }

  /** Some pc of [lo, hi) makes the interpreter stop before the `n`-th instruction: this
      instruction is the first at a location above all before, and above `lo`. */
  predicate StopsWithin(c: Context, program: seq<Instruction>, start: nat, n: nat, lo: nat, hi: nat)
    requires n <= |program|
  {
    Floor(c, program, start, n) < LocAt(c, program, start, n) && Floor(c, program, start, n) < hi
    && lo < LocAt(c, program, start, n) && lo < hi
  }

  /** The row for `pc` starts at the location of its origin. Each earlier point at which another pc
      of the row would stop has the same rules. */
  predicate NothingOverstated(c: Context, program: seq<Instruction>, m: Machine, pc: nat) {
    var k := Stop(c, program, m.curPc, 0, pc);
    var lo := LocAt(c, program, m.curPc, Origin(program, k));
    forall n :: 0 <= n < k && StopsWithin(c, program, m.curPc, n, lo, RowEnd(c, program, m.curPc, pc)) ==>
      SameRulesAfter(c, program, m, n, k)
  }

  predicate SameRulesAfter(c: Context, program: seq<Instruction>, m: Machine, n: nat, k: nat)
    requires n <= |program| && k <= |program|
  {
    var r := After(c, program, m, k);
    r.Success? && RulesAfter(c, program, m, n, r.value.row.rules)
  }

  /** For every program, also one that moves back: a row is valid over its whole range if and only
      if the program does not change the rules between a location the row claims and the end of
      the row. */
  lemma RowValidExactly(c: Context, program: seq<Instruction>, m: Machine, pc: nat)
    requires m.row.pcStart == m.curPc && m.states == []
    requires Run(c, program, 0, m, pc).Success?
    ensures
      var r := Run(c, program, 0, m, pc).value;
      RowValid(c, program, m, Finish(r.0, r.1)) <==> NothingOverstated(c, program, m, pc)
  {
    var r := Run(c, program, 0, m, pc).value;
    var row := Finish(r.0, r.1);
    var k := Stop(c, program, m.curPc, 0, pc);
    RunIsAfterStop(c, program, m, 0, pc);
    AfterLocation(c, program, m, k);
    StartIsOrigin(c, program, m, k);
    if NothingOverstated(c, program, m, pc) {
      forall pc' | row.pcStart <= pc' < row.pcEnd
        ensures RulesAt(c, program, m, pc') == Success(row.rules)
      {
        RulesWithinRow(c, program, m, pc, row, pc');
      }
    }
    if RowValid(c, program, m, row) {
      forall n | 0 <= n < k && StopsWithin(c, program, m.curPc, n, row.pcStart, row.pcEnd)
        ensures SameRulesAfter(c, program, m, n, k)
      {
        RulesWhereStopped(c, program, m, row, n);
      }
    }
  }

  lemma RulesWithinRow(c: Context, program: seq<Instruction>, m: Machine, pc: nat, row: LocRegs, pc': nat)
    requires NothingOverstated(c, program, m, pc) && row.pcStart <= pc' < row.pcEnd
    requires
      var k := Stop(c, program, m.curPc, 0, pc);
      && row.pcStart == LocAt(c, program, m.curPc, Origin(program, k))
      && row.pcEnd == RowEnd(c, program, m.curPc, pc)
      && RulesAfter(c, program, m, k, row.rules)
    ensures RulesAt(c, program, m, pc') == Success(row.rules)
  {
    var k := Stop(c, program, m.curPc, 0, pc);
    var k' := Stop(c, program, m.curPc, 0, pc');
    RulesAtStop(c, program, m, pc');
    if k' < k {
      StopExactly(c, program, m.curPc, k', pc');
      assert StopsWithin(c, program, m.curPc, k', row.pcStart, row.pcEnd);
    }
  }

  lemma RulesWhereStopped(c: Context, program: seq<Instruction>, m: Machine, row: LocRegs, n: nat)
    requires RowValid(c, program, m, row)
    requires n < |program| && StopsWithin(c, program, m.curPc, n, row.pcStart, row.pcEnd)
    ensures RulesAfter(c, program, m, n, row.rules)
  {
    var floor := Floor(c, program, m.curPc, n);
    var pc' := if floor < row.pcStart then row.pcStart else floor;
    StopExactly(c, program, m.curPc, n, pc');
    RulesAtStop(c, program, m, pc');
    assert RulesAt(c, program, m, pc') == Success(row.rules);
  }

  /** Rows of programs whose locations never decrease are valid, unless the program runs to
      its end and ends in a restore_state that has something to restore. */
  lemma RowValidity(c: Context, program: seq<Instruction>, m: Machine, pc: nat)
    requires m.row.pcStart == m.curPc && m.states == []
    requires Ascending(c, program, m.curPc)
    requires program != [] && Restores(program, |program|) ==> Stop(c, program, m.curPc, 0, pc) < |program|
    requires Run(c, program, 0, m, pc).Success?
    ensures
      var r := Run(c, program, 0, m, pc).value;
      RowValid(c, program, m, Finish(r.0, r.1))
  {
    var k := Stop(c, program, m.curPc, 0, pc);
    RowValidExactly(c, program, m, pc);
    if 0 < k && Restores(program, k) {
      assert LocAt(c, program, m.curPc, k - 1) <= pc;
    }
    forall n | 0 <= n < k
      ensures LocAt(c, program, m.curPc, n) <= LocAt(c, program, m.curPc, k - 1)
    {
      AscendingRange(c, program, m.curPc, n, k - 1);
    }
  }

  /** The interpreter reaches the end of the program for some pc of the FDE. */
  predicate HasLastRow(c: Context, program: seq<Instruction>, m: Machine) {
    After(c, program, m, |program|).Success? && LocAt(c, program, m.curPc, |program|) < c.fde.pcEnd
  }

  /** The instruction before the `n`-th leaves a location. */
  predicate Left(c: Context, program: seq<Instruction>, start: nat, n: nat)
    requires 0 < n <= |program|
  {
    LocAt(c, program, start, n - 1) < LocAt(c, program, start, n)
  }

  /** Every location left after the instruction at `a` is left under the rules in force at `a`. */
  predicate LeavesUnderRulesAt(c: Context, program: seq<Instruction>, m: Machine, a: nat)
    requires a <= |program|
  {
    forall n :: a < n <= |program| && Left(c, program, m.curPc, n) ==> SameRulesAfter(c, program, m, n, a)
  }

  /** A program that ends in a restore_state has left every location since the matching
      remember_state under the rules that were remembered. */
  predicate EndsSoundly(c: Context, program: seq<Instruction>, m: Machine) {
    program != [] && Restores(program, |program|) && HasLastRow(c, program, m) ==>
      LeavesUnderRulesAt(c, program, m, Origin(program, |program|))
  }

  /** The row reported for `pc`, if one is reported, is valid. */
  ghost predicate ValidFor(c: Context, program: seq<Instruction>, m: Machine, pc: nat) {
    var r := Run(c, program, 0, m, pc);
    r.Success? ==> RowValid(c, program, m, Finish(r.value.0, r.value.1))
  }

  /** The last row, when the program ends in a restore_state. */
  lemma LastRowValidExactly(c: Context, program: seq<Instruction>, m: Machine, pc: nat)
    requires m.row.pcStart == m.curPc && m.states == [] && Ascending(c, program, m.curPc)
    requires program != [] && Restores(program, |program|) && pc < c.fde.pcEnd
    requires Stop(c, program, m.curPc, 0, pc) == |program| && Run(c, program, 0, m, pc).Success?
    ensures HasLastRow(c, program, m)
    ensures ValidFor(c, program, m, pc) <==> LeavesUnderRulesAt(c, program, m, Origin(program, |program|))
  {
    RunIsAfterStop(c, program, m, 0, pc);
    RowValidExactly(c, program, m, pc);
    StartIsOrigin(c, program, m, |program|);
    LastRowCondition(c, program, m, pc);
  }

  lemma LastRowCondition(c: Context, program: seq<Instruction>, m: Machine, pc: nat)
    requires Ascending(c, program, m.curPc)
    requires program != [] && program[|program| - 1].RestoreState? && pc < c.fde.pcEnd
    requires Stop(c, program, m.curPc, 0, pc) == |program|
    requires SameRulesAfter(c, program, m, Origin(program, |program|), |program|)
    ensures NothingOverstated(c, program, m, pc) <==> LeavesUnderRulesAt(c, program, m, Origin(program, |program|))
  {
    var k := |program|;
    var a := Origin(program, k);
    var lo := LocAt(c, program, m.curPc, a);
    assert LocAt(c, program, m.curPc, k) == LocAt(c, program, m.curPc, k - 1) <= pc;
    forall n | 0 <= n < k
      ensures StopsWithin(c, program, m.curPc, n, lo, c.fde.pcEnd) <==> a < n && Left(c, program, m.curPc, n)
      ensures SameRulesAfter(c, program, m, n, k) <==> SameRulesAfter(c, program, m, n, a)
    {
      StopsWhereLeft(c, program, m.curPc, a, n, pc);
    }
  }

  lemma StopsWhereLeft(c: Context, program: seq<Instruction>, start: nat, a: nat, n: nat, pc: nat)
    requires Ascending(c, program, start) && a < |program| && n < |program| && pc < c.fde.pcEnd
    requires forall j :: 0 <= j < |program| ==> LocAt(c, program, start, j) <= pc
    ensures StopsWithin(c, program, start, n, LocAt(c, program, start, a), c.fde.pcEnd)
       <==> a < n && Left(c, program, start, n)
  {
    if n <= a {
      AscendingRange(c, program, start, n, a);
    } else {
      AscendingRange(c, program, start, a, n - 1);
      FloorOfAscending(c, program, start, n);
    }
  }

  lemma FloorOfAscending(c: Context, program: seq<Instruction>, start: nat, n: nat)
    requires Ascending(c, program, start) && 0 < n <= |program|
    ensures Floor(c, program, start, n) == LocAt(c, program, start, n - 1)
  {
    forall j | 0 <= j < n
      ensures LocAt(c, program, start, j) <= LocAt(c, program, start, n - 1)
    {
      AscendingRange(c, program, start, j, n - 1);
    }
    FloorIsLeast(c, program, start, n, LocAt(c, program, start, n - 1));
  }

  lemma StopAtEnd(c: Context, program: seq<Instruction>, start: nat)
    requires Ascending(c, program, start)
    ensures Stop(c, program, start, 0, LocAt(c, program, start, |program|)) == |program|
  {
    var k := Stop(c, program, start, 0, LocAt(c, program, start, |program|));
    AscendingRange(c, program, start, k, |program|);
  }

  /** All rows of a program whose locations never decrease are valid, if and only if it does not end
      in a restore_state, or every location left since the matching remember_state has been left
      under the rules that were remembered. */
  lemma AllRowsValidExactly(c: Context, program: seq<Instruction>, m: Machine)
    requires m.row.pcStart == m.curPc && m.states == [] && Ascending(c, program, m.curPc)
    ensures (forall pc: nat :: pc < c.fde.pcEnd ==> ValidFor(c, program, m, pc)) <==> EndsSoundly(c, program, m)
  {
    var ends := program != [] && Restores(program, |program|);
    forall pc: nat | pc < c.fde.pcEnd && Run(c, program, 0, m, pc).Success?
      ensures ends && Stop(c, program, m.curPc, 0, pc) == |program| ==>
        && HasLastRow(c, program, m)
        && (ValidFor(c, program, m, pc) <==> LeavesUnderRulesAt(c, program, m, Origin(program, |program|)))
      ensures !(ends && Stop(c, program, m.curPc, 0, pc) == |program|) ==> ValidFor(c, program, m, pc)
    {
      if ends && Stop(c, program, m.curPc, 0, pc) == |program| {
        LastRowValidExactly(c, program, m, pc);
      } else {
        RowValidity(c, program, m, pc);
      }
    }
    if ends && HasLastRow(c, program, m) {
      var pc := LocAt(c, program, m.curPc, |program|);
      StopAtEnd(c, program, m.curPc);
      RunIsAfterStop(c, program, m, 0, pc);
    }
  }

  /** The row always contains the pc it was computed for. */
  lemma RowContainsPc(c: Context, program: seq<Instruction>, m: Machine, pc: nat)
    requires m.row.pcStart == m.curPc <= pc < c.fde.pcEnd && m.states == []
    requires Run(c, program, 0, m, pc).Success?
    ensures
      var r := Run(c, program, 0, m, pc).value;
      r.0.row.pcStart <= pc < r.1
  {
    var k := Stop(c, program, m.curPc, 0, pc);
    RunIsAfterStop(c, program, m, 0, pc);
    AfterLocation(c, program, m, k);
    StartIsOrigin(c, program, m, k);
  }

  // ---------------------------------------------------------------------------
  // Nesting of remember_state and restore_state

  function Depth(program: seq<Instruction>, lo: nat, n: nat): int
    requires lo <= n <= |program|
    decreases n
  {
    if n == lo then 0
    else
      Depth(program, lo, n - 1) +
      match program[n - 1]
      case RememberState => 1
      case RestoreState => -1
      case _ => 0
  }

  ghost predicate WellNested(program: seq<Instruction>, lo: nat, hi: nat) {
    && lo <= hi <= |program|
    && Depth(program, lo, hi) == 0
    && forall n :: lo <= n <= hi ==> Depth(program, lo, n) >= 0
  }

  lemma {:induction false} StatesGrow(c: Context, program: seq<Instruction>, m: Machine, lo: nat, n: nat)
    requires lo <= n <= |program|
    requires forall j :: lo <= j <= n ==> Depth(program, lo, j) >= 0
    requires After(c, program, m, n).Success?
    ensures After(c, program, m, lo).Success?
    ensures
      var base := After(c, program, m, lo).value.states;
      var states := After(c, program, m, n).value.states;
      base <= states && |states| == |base| + Depth(program, lo, n)
    decreases n
  {
    if lo < n {
      StatesGrow(c, program, m, lo, n - 1);
      ExecStates(c, Refresh(After(c, program, m, n - 1).value), program[n - 1]);
    }
  }

  lemma {:induction false} RememberedGrows(program: seq<Instruction>, lo: nat, n: nat)
    requires lo <= n <= |program| && forall j :: lo <= j <= n ==> Depth(program, lo, j) >= 0
    ensures Remembered(program, lo) <= Remembered(program, n)
    ensures |Remembered(program, n)| == |Remembered(program, lo)| + Depth(program, lo, n)
    decreases n
  {
    if lo < n {
      RememberedGrows(program, lo, n - 1);
      var before := Remembered(program, n - 1);
      assert program[n - 1].RestoreState? ==>
          |before| > |Remembered(program, lo)| && Remembered(program, n) == before[..|before| - 1];
    }
  }

  /** A restore_state goes back to the remember_state with a well-nested body in between. */
  lemma OriginIsMatch(program: seq<Instruction>, a: nat, b: nat)
    requires a < b < |program|
    requires program[a].RememberState? && program[b].RestoreState?
    requires WellNested(program, a + 1, b)
    ensures Restores(program, b + 1) && Origin(program, b + 1) == a
  {
    RememberedGrows(program, a + 1, b);
    var before := Remembered(program, a);
    assert Remembered(program, a + 1) == before + [a];
  }

  /** A remember/restore block with a well-nested body leaves the rules and the state stack as
      they were, whatever the body did. */
  lemma RestoreUndoesBlock(c: Context, program: seq<Instruction>, m: Machine, a: nat, b: nat)
    requires a < b < |program|
    requires program[a].RememberState? && program[b].RestoreState?
    requires WellNested(program, a + 1, b)
    requires After(c, program, m, b + 1).Success?
    ensures After(c, program, m, a).Success?
    ensures
      var before := After(c, program, m, a).value;
      var after := After(c, program, m, b + 1).value;
      after.row.rules == before.row.rules && after.states == before.states
  {
    StatesGrow(c, program, m, a + 1, b);
    AfterPrefix(c, program, m, a, a + 1);
    ExecStates(c, Refresh(After(c, program, m, a).value), program[a]);
  }

  // ---------------------------------------------------------------------------
  // Why the conditions on row validity are there

  /** A frame description covering [0, 16) with unit alignment factors. */
  function SampleContext(program: seq<Instruction>): Context {
    Context(W64, Fde(0, 16, 0, Cie(1, 1, 0, []), program), Some(map[]))
  }

  lemma AfterStep(c: Context, program: seq<Instruction>, m: Machine, n: nat, before: Machine, after: Machine)
    requires n < |program| && After(c, program, m, n) == Success(before)
    requires Exec(c, Refresh(before), program[n]) == Success(after)
    ensures After(c, program, m, n + 1) == Success(after)
  {
  }

  const RestoringProgram: seq<Instruction> := [RememberState, UndefinedReg(1), AdvanceLoc(4), RestoreState]

  lemma RestoringTrace(c: Context, m: Machine)
    requires c == SampleContext(RestoringProgram) && m == Enter(c, map[], [])
    ensures After(c, RestoringProgram, m, 3) == Success(Machine(4, Row(map[1 := Undefined], 0), [Row(map[], 0)]))
    ensures After(c, RestoringProgram, m, 4) == Success(Machine(4, Row(map[], 0), []))
  {
    var saved := Row(map[], 0);
    var changed := Row(map[1 := Undefined], 0);
    assert m == Machine(0, saved, []);
    assert m.states + [saved] == [saved];
    AfterStep(c, RestoringProgram, m, 0, m, Machine(0, saved, [saved]));
    AfterStep(c, RestoringProgram, m, 1, Machine(0, saved, [saved]), Machine(0, changed, [saved]));
    AfterStep(c, RestoringProgram, m, 2, Machine(0, changed, [saved]), Machine(4, changed, [saved]));
    AfterStep(c, RestoringProgram, m, 3, Machine(4, changed, [saved]), Machine(4, saved, []));
  }

  /** Ending in restore_state brings back an old `pc_start`: the row reported for pc 8 claims
      all of [0, 16), but other rules are in force at pc 0. */
  lemma RestoreAtEndOverstatesRow()
    ensures
      var c := SampleContext(RestoringProgram);
      var m := Enter(c, map[], []);
      && Ascending(c, RestoringProgram, 0)
      && Run(c, RestoringProgram, 0, m, 8) == Success((Machine(4, Row(map[], 0), []), 16))
      && RulesAt(c, RestoringProgram, m, 0) == Success(map[1 := Undefined])
      && !RowValid(c, RestoringProgram, m, LocRegs(map[], 0, 16))
  {
    var c := SampleContext(RestoringProgram);
    var m := Enter(c, map[], []);
    assert LocAt(c, RestoringProgram, 0, 2) == 0;
    assert LocAt(c, RestoringProgram, 0, 3) == 4 && LocAt(c, RestoringProgram, 0, 4) == 4;
    RestoringTrace(c, m);
    RunIsAfterStop(c, RestoringProgram, m, 0, 8);
    RunIsAfterStop(c, RestoringProgram, m, 0, 0);
    assert 1 in map[1 := Undefined];
  }

  const BackwardsProgram: seq<Instruction> := [UndefinedReg(1), AdvanceLoc(8), SetLoc(2), SameValue(1)]

  lemma BackwardsTrace(c: Context, m: Machine)
    requires c == SampleContext(BackwardsProgram) && m == Enter(c, map[], [])
    ensures After(c, BackwardsProgram, m, 2) == Success(Machine(8, Row(map[1 := Undefined], 0), []))
    ensures After(c, BackwardsProgram, m, 4) == Success(Machine(2, Row(map[], 2), []))
  {
    var first := Row(map[1 := Undefined], 0);
    AfterStep(c, BackwardsProgram, m, 0, m, Machine(0, first, []));
    AfterStep(c, BackwardsProgram, m, 1, Machine(0, first, []), Machine(8, first, []));
    AfterStep(c, BackwardsProgram, m, 2, Machine(8, first, []), Machine(2, first.(pcStart := 8), []));
    AfterStep(c, BackwardsProgram, m, 3, Machine(2, first.(pcStart := 8), []), Machine(2, Row(map[], 2), []));
  }

  /** A DW_CFA_set_loc that moves back makes a row claim pcs that earlier instructions own: the row
      reported for pc 9 claims [2, 16), but other rules are in force at pc 3. */
  lemma BackwardsLocationOverstatesRow()
    ensures
      var c := SampleContext(BackwardsProgram);
      var m := Enter(c, map[], []);
      && Run(c, BackwardsProgram, 0, m, 9) == Success((Machine(2, Row(map[], 2), []), 16))
      && RulesAt(c, BackwardsProgram, m, 3) == Success(map[1 := Undefined])
      && !RowValid(c, BackwardsProgram, m, LocRegs(map[], 2, 16))
  {
    var c := SampleContext(BackwardsProgram);
    var m := Enter(c, map[], []);
    assert LocAt(c, BackwardsProgram, 0, 1) == 0 && LocAt(c, BackwardsProgram, 0, 2) == 8;
    assert LocAt(c, BackwardsProgram, 0, 3) == 2 && LocAt(c, BackwardsProgram, 0, 4) == 2;
    BackwardsTrace(c, m);
    RunIsAfterStop(c, BackwardsProgram, m, 0, 9);
    RunIsAfterStop(c, BackwardsProgram, m, 0, 3);
    assert 1 in map[1 := Undefined];
  }

  // ---------------------------------------------------------------------------
  // The interpreter itself

  /** `DwarfCfa<AddressType>`. `row` is the caller's `loc_regs` while a program runs. */
  class Interpreter {
    const width: Width
    const fde: Fde
    var cieRules: Option<Rules>
    var curPc: nat
    var row: Row
    var states: seq<Row>

    constructor (width: Width, fde: Fde)
      ensures this.width == width && this.fde == fde
      ensures cieRules == None && states == []
    {
      this.width := width;
      this.fde := fde;
      cieRules := None;
      curPc := 0;
      row := Row(map[], 0);
      states := [];
    }

    ghost function Ctx(): Context
      reads this
    {
      Context(width, fde, cieRules)
    }

    ghost function State(): Machine
      reads this
    {
      Machine(curPc, row, states)
    }

    method Set(reg: nat, location: Location)
      modifies this`row
      ensures State() == SetRule(old(State()), reg, location)
    {
      row := row.(rules := row.rules[Key(reg) := location]);
    }

    method Erase(reg: nat)
      modifies this`row
      ensures State() == EraseRule(old(State()), reg)
    {
      row := row.(rules := row.rules - {Key(reg)});
    }

    /** The opcode switch and the `cfa_*` handlers. */
    method Execute(i: Instruction) returns (r: Result<()>)
      modifies this`curPc, this`row, this`states
      ensures
        match Exec(Ctx(), old(State()), i)
        case Success(m) => r == Success(()) && State() == m
        case Failure(error) => r == Failure(error)
    {
      r := Success(());
      if i.DefCfaRegister? || i.DefCfaOffset? || i.DefCfaOffsetSf? {
        if CFA_REG !in row.rules || !row.rules[CFA_REG].Register? {
          return Failure(IllegalState);
        }
      }
      match i
      case Nop =>
      case SetLoc(pc) =>
        curPc := width.Truncate(pc);
      case AdvanceLoc(delta) =>
        curPc := width.Truncate(curPc + delta * fde.cie.codeAlign);
      case Restore(reg) =>
        if cieRules == None {
          return Failure(IllegalState);
        }
        if Key(reg) in cieRules.value {
          Set(reg, cieRules.value[Key(reg)]);
        } else {
          Erase(reg);
        }
      case SameValue(reg) =>
        Erase(reg);
      case RememberState =>
        states := states + [row];
      case RestoreState =>
        if |states| != 0 {
          row := states[|states| - 1];
          states := states[..|states| - 1];
        }
      case DefCfaRegister(reg) =>
        Set(CFA_REG, Register(width.Truncate(reg), row.rules[CFA_REG].offset));
      case DefCfaOffset(operand) =>
        Set(CFA_REG, Register(row.rules[CFA_REG].reg, width.Truncate(operand)));
      case DefCfaOffsetSf(operand) =>
        Set(CFA_REG, Register(row.rules[CFA_REG].reg, Scaled(Context(width, fde, cieRules), operand)));
      case Illegal =>
        return Failure(IllegalValue);
      case Unreadable =>
        return Failure(MemoryInvalid);
      case _ =>
        var rule := RuleOf(Context(width, fde, cieRules), i);
        Set(rule.0, rule.1);
    }

    /** `GetLocationInfo`: the state stack is kept from one call to the next. */
    method GetLocationInfo(pc: nat, program: seq<Instruction>, rules: Rules) returns (r: Result<LocRegs>)
      modifies this`curPc, this`row, this`states
      ensures
        match Run(Ctx(), program, 0, Enter(Ctx(), rules, old(states)), pc)
        case Success(last) => r == Success(Finish(last.0, last.1)) && states == last.0.states
        case Failure(error) => r == Failure(error)
    {
      curPc := width.Truncate(fde.pcStart);
      row := Row(if cieRules.Some? then rules + cieRules.value else rules, curPc);
      var i := 0;
      while true
        invariant i <= |program|
        invariant Run(Ctx(), program, i, State(), pc)
               == Run(Ctx(), program, 0, Enter(Ctx(), rules, old(states)), pc)
        decreases |program| - i
      {
        if curPc > pc {
          return Success(LocRegs(row.rules, row.pcStart, curPc));
        }
        if i == |program| {
          return Success(LocRegs(row.rules, row.pcStart, fde.pcEnd));
        }
        row := row.(pcStart := curPc);
        var e := Execute(program[i]);
        if e.Failure? {
          return Failure(e.error);
        }
        i := i + 1;
      }
    }
  }
}
