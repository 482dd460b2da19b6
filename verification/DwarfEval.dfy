/**
 Applying a row to the registers (`Eval` and `EvalRegister` of DwarfSection.cpp, RegsInfo.h).
 Registers are overwritten one after the other in the iteration order of a hash map, while
 `RegsInfo` shadows the values they had.
 */
module DwarfEval {
  import opened Basics
  import opened DwarfMemory
  import opened DwarfCfa
  import DwarfOp
  import DwarfExpression

  /** What `Eval` does not change: the two memories, the return address register of the CIE,
      and where the architecture keeps the pc and the sp. */
  datatype Frame = Frame(width: Width, section: Memory, process: Memory, returnReg: nat, pcReg: nat, spReg: nat)

  /** A value, a failure, or an expression that C++ gives no defined result. */
  datatype Evaluated<+T> = Known(value: T) | Failing | NoResult {
    predicate IsFailure() {
      !Known?
    }

    function PropagateFailure<U>(): Evaluated<U>
      requires !Known?
    {
      if Failing? then Evaluated<U>.Failing else Evaluated<U>.NoResult
    }

    function Extract(): T
      requires Known?
    {
      value
    }
  }

  function OutcomeValue(outcome: DwarfOp.Outcome): Evaluated<(nat, bool)> {
    match outcome
    case Done(s, dex) => if s.stack == [] || s.isRegister then Failing else Known((s.stack[0], dex))
    case Failed(_) => Failing
    case Undetermined => NoResult
  }

  /** The value of an expression, and whether it carries the dex pc marker. */
  function ExpressionValue(f: Frame, regs: seq<nat>, length: nat, end: nat): Evaluated<(nat, bool)> {
    OutcomeValue(DwarfOp.Eval(DwarfOp.Env(f.width, f.section, f.process, regs), (end - length) % TWO64, end))
  }

  function ReadRegister(f: Frame, addr: nat): Evaluated<nat> {
    match ReadFully(f.process, addr, f.width.Bytes())
    case None => Failing
    case Some(bytes) => Known(LittleEndian(bytes))
  }

  /** The canonical frame address. */
  function CfaValue(f: Frame, regs: seq<nat>, rules: Rules): Evaluated<nat> {
    if CFA_REG !in rules then Failing
    else
      match rules[CFA_REG]
      case Register(reg, offset) =>
        if reg >= |regs| then Failing else Known(f.width.Truncate(regs[reg] + offset))
      case ValExpression(length, end) =>
        var e :- ExpressionValue(f, regs, length, end);
        Known(e.0)
      case _ => Failing
  }

  /** What a rule says about a register: nothing, or a new value. */
  datatype Recovered = Keep | Set(value: nat) | SetDex(value: nat)

  /** A rule evaluated on the registers of the callee. */
  function RuleValue(f: Frame, regs: seq<nat>, cfa: nat, rule: Location): Evaluated<Recovered> {
    match rule
    case Undefined => Known(Keep)
    case Offset(offset) =>
      var v :- ReadRegister(f, (cfa + offset) % TWO64);
      Known(Set(v))
    case ValOffset(offset) => Known(Set(f.width.Truncate(cfa + offset)))
    case Register(reg, offset) =>
      if reg % TWO32 >= |regs| then Failing
      else Known(Set(f.width.Truncate(regs[reg % TWO32] + offset)))
    case Expression(length, end) =>
      var e :- ExpressionValue(f, regs, length, end);
      var v :- ReadRegister(f, e.0);
      Known(Set(v))
    case ValExpression(length, end) =>
      var e :- ExpressionValue(f, regs, length, end);
      Known(if e.1 then SetDex(e.0) else Set(e.0))
  }

  /** The rules `Eval` applies: those of registers the architecture has. */
  predicate Applies(rules: Rules, total: nat, reg: nat) {
    reg in rules && reg != CFA_REG && reg < total
  }

  // ---------------------------------------------------------------------------
  // The simultaneous assignment

  /** What each rule says, on some fixed registers. */
  type Valuation = Location -> Evaluated<Recovered>

  function NewValue(value: Valuation, regs: seq<nat>, rules: Rules, reg: nat): nat
    requires reg < |regs|
  {
    if !Applies(rules, |regs|, reg) then regs[reg]
    else
      match value(rules[reg])
      case Known(Set(v)) => v
      case Known(SetDex(v)) => v
      case _ => regs[reg]
  }

  predicate ReturnUndefined(rules: Rules, returnReg: nat) {
    returnReg in rules && returnReg != CFA_REG && rules[returnReg].Undefined?
  }

  function NewPc(value: Valuation, regs: seq<nat>, rules: Rules, returnReg: nat): nat
    requires returnReg < |regs|
  {
    if ReturnUndefined(rules, returnReg) then 0 else NewValue(value, regs, rules, returnReg)
  }

  /** Every ruled register gets its rule evaluated on the old registers; then sp and pc. */
  function FinalValue(f: Frame, value: Valuation, regs: seq<nat>, cfa: nat, rules: Rules, reg: nat): nat
    requires f.returnReg < |regs| && reg < |regs|
  {
    if reg == f.spReg then cfa
    else if reg == f.pcReg then NewPc(value, regs, rules, f.returnReg)
    else NewValue(value, regs, rules, reg)
  }

  predicate MarksDex(value: Valuation, total: nat, rules: Rules, reg: nat) {
    Applies(rules, total, reg) && var r := value(rules[reg]); r.Known? && r.value.SetDex?
  }

  /** The dex pc ends up as that of the last marked expression in iteration order. */
  function DexPc(value: Valuation, total: nat, rules: Rules, order: seq<nat>): nat {
    if order == [] then 0
    else
      var reg := order[|order| - 1];
      if MarksDex(value, total, rules, reg) then value(rules[reg]).value.value
      else DexPc(value, total, rules, order[..|order| - 1])
  }

  predicate AllRecovered(value: Valuation, total: nat, rules: Rules) {
    forall reg :: reg in rules && Applies(rules, total, reg) ==> value(rules[reg]).Known?
  }

  /** `Eval` succeeds: a condition on the old registers, not on any order. */
  predicate Succeeds(f: Frame, regs: seq<nat>, rules: Rules) {
    && f.returnReg < |regs|
    && CfaValue(f, regs, rules).Known?
    && var cfa := CfaValue(f, regs, rules).value;
    AllRecovered(rule => RuleValue(f, regs, cfa, rule), |regs|, rules)
  }

  /** An iteration order of the rule map. */
  ghost predicate Enumerates(order: seq<nat>, rules: Rules) {
    && (forall reg :: reg in rules <==> reg in order)
    && (forall i: nat, j: nat {:trigger Differ(order, i, j)} :: i < j < |order| ==> Differ(order, i, j))
  }

  predicate Differ(order: seq<nat>, i: nat, j: nat)
    requires i < j < |order|
  {
    order[i] != order[j]
  }

  lemma NotYet(order: seq<nat>, rules: Rules, i: nat)
    requires Enumerates(order, rules) && i < |order|
    ensures order[i] in rules && order[i] !in order[..i]
  {
    forall k | 0 <= k < i
      ensures order[k] != order[i]
    {
      assert Differ(order, k, i);
    }
  }

  // ---------------------------------------------------------------------------
  // RegsInfo

  const MAX_REGISTERS: nat := 64

  class RegsInfo {
    const regs: array<nat>
    const savedRegs: array<nat>
    var savedRegMap: set<nat>

    constructor (regs: array<nat>)
      ensures this.regs == regs && savedRegMap == {} && Valid() && fresh(savedRegs)
    {
      this.regs := regs;
      savedRegs := new nat[MAX_REGISTERS];
      savedRegMap := {};
    }

    ghost predicate Valid()
      reads this
    {
      && regs != savedRegs && savedRegs.Length == MAX_REGISTERS
      && forall reg :: reg in savedRegMap ==> reg < MAX_REGISTERS
    }

    predicate IsSaved(reg: nat)
      reads this
    {
      reg in savedRegMap
    }

    /** The value the register had before this evaluation touched it. */
    function Get(reg: nat): nat
      requires Valid() && reg < regs.Length
      reads this, regs, savedRegs
    {
      if IsSaved(reg) then savedRegs[reg] else regs[reg]
    }

    method Save(reg: nat)
      requires Valid() && reg < regs.Length && reg < MAX_REGISTERS
      modifies this, savedRegs
      ensures Valid() && savedRegMap == old(savedRegMap) + {reg}
      ensures savedRegs[..] == old(savedRegs[..])[reg := regs[reg]]
    {
      savedRegMap := savedRegMap + {reg};
      savedRegs[reg] := regs[reg];
    }

    /** All registers as `Get` shows them. */
    function View(): seq<nat>
      requires Valid()
      reads this, regs, savedRegs
    {
      seq(regs.Length, reg requires 0 <= reg < regs.Length && Valid() reads this, regs, savedRegs => Get(reg))
    }
  }

  // ---------------------------------------------------------------------------
  // Eval

  /** `EvalRegister`: store what the rule says about `reg`. */
  method EvalRegister(f: Frame, rule: Location, reg: nat, cfa: nat, info: RegsInfo) returns (r: Evaluated<Recovered>)
    requires info.Valid() && reg < info.regs.Length
    modifies info.regs
    ensures r == RuleValue(f, old(info.View()), cfa, rule)
    ensures
      info.regs[..] ==
      if !r.Known? || r.value.Keep? then old(info.regs[..]) else old(info.regs[..])[reg := r.value.value]
  {
    match rule {
      case Undefined => return Known(Keep);
      case Offset(offset) =>
        var v :- ReadRegister(f, (cfa + offset) % TWO64);
        r := Known(Set(v));
      case ValOffset(offset) => r := Known(Set(f.width.Truncate(cfa + offset)));
      case Register(source, offset) =>
        var curReg := source % TWO32;
        if curReg >= info.regs.Length {
          return Failing;
        }
        r := Known(Set(f.width.Truncate(info.Get(curReg) + offset)));
      case Expression(length, end) =>
        var e :- ExpressionValue(f, info.View(), length, end);
        var v :- ReadRegister(f, e.0);
        r := Known(Set(v));
      case ValExpression(length, end) =>
        var e :- ExpressionValue(f, info.View(), length, end);
        r := Known(if e.1 then SetDex(e.0) else Set(e.0));
    }
    info.regs[reg] := r.value.value;
  }

  /** The registers once the rules of the registers in `done` have been applied. */
  ghost predicate Applied(value: Valuation, was: seq<nat>, rules: Rules, done: seq<nat>, now: seq<nat>) {
    && |now| == |was|
    && forall reg :: 0 <= reg < |was| ==>
       now[reg] == if reg in done then NewValue(value, was, rules, reg) else was[reg]
  }

  /** The shadow holds the old value of every register handled so far. */
  ghost predicate Shadows(info: RegsInfo, was: seq<nat>, rules: Rules, done: seq<nat>)
    requires info.Valid() && info.regs.Length == |was| <= MAX_REGISTERS
    reads info, info.savedRegs
  {
    && (forall reg :: reg in info.savedRegMap <==> reg in done && Applies(rules, |was|, reg))
    && (forall reg :: reg in info.savedRegMap && reg < |was| ==> info.savedRegs[reg] == was[reg])
  }

  lemma AppliedOne(value: Valuation, was: seq<nat>, rules: Rules, done: seq<nat>, now: seq<nat>, reg: nat)
    requires Applied(value, was, rules, done, now) && reg !in done && reg in rules
    ensures !Applies(rules, |was|, reg) ==> Applied(value, was, rules, done + [reg], now)
    ensures
      Applies(rules, |was|, reg) && value(rules[reg]).Known? ==>
        var r := value(rules[reg]).value;
        Applied(value, was, rules, done + [reg], if r.Keep? then now else now[reg := r.value])
  {
  }

  /** What the first rule in iteration order that has no value has instead. */
  function FirstTrouble(value: Valuation, total: nat, rules: Rules, order: seq<nat>): Evaluated<()> {
    if order == [] then Known(())
    else
      var reg := order[|order| - 1];
      var _ :- FirstTrouble(value, total, rules, order[..|order| - 1]);
      if Applies(rules, total, reg) && !value(rules[reg]).Known? then value(rules[reg]).PropagateFailure()
      else Known(())
  }

  lemma TroubleOne(value: Valuation, total: nat, rules: Rules, done: seq<nat>, reg: nat)
    requires FirstTrouble(value, total, rules, done).Known?
    ensures
      FirstTrouble(value, total, rules, done + [reg]) ==
      if Applies(rules, total, reg) && !value(rules[reg]).Known? then value(rules[reg]).PropagateFailure()
      else Known(())
  {
    assert (done + [reg])[..|done|] == done;
  }

  lemma {:induction false} TroubleStays(value: Valuation, total: nat, rules: Rules, order: seq<nat>, i: nat)
    requires i <= |order| && !FirstTrouble(value, total, rules, order[..i]).Known?
    ensures FirstTrouble(value, total, rules, order) == FirstTrouble(value, total, rules, order[..i])
    decreases |order|
  {
    if i == |order| {
      assert order[..i] == order;
    } else {
      var front := order[..|order| - 1];
      assert front[..i] == order[..i];
      TroubleStays(value, total, rules, front, i);
    }
  }

  lemma {:induction false} NoTrouble(value: Valuation, total: nat, rules: Rules, order: seq<nat>)
    ensures FirstTrouble(value, total, rules, order).Known?
       <==> forall reg :: reg in order && Applies(rules, total, reg) ==> value(rules[reg]).Known?
  {
    if order != [] {
      var front := order[..|order| - 1];
      assert order == front + [order[|order| - 1]];
      NoTrouble(value, total, rules, front);
    }
  }

  /** Why `Eval` does not succeed for an iteration order. */
  function Trouble(f: Frame, regs: seq<nat>, rules: Rules, order: seq<nat>): Evaluated<()> {
    if f.returnReg >= |regs| then Failing
    else
      var cfa :- CfaValue(f, regs, rules);
      FirstTrouble(rule => RuleValue(f, regs, cfa, rule), |regs|, rules, order)
  }

  /** Whether there is trouble does not depend on the order, only which one comes first. */
  lemma TroubleExactly(f: Frame, regs: seq<nat>, rules: Rules, order: seq<nat>)
    requires Enumerates(order, rules)
    ensures Trouble(f, regs, rules, order).Known? <==> Succeeds(f, regs, rules)
  {
    if f.returnReg < |regs| && CfaValue(f, regs, rules).Known? {
      var cfa := CfaValue(f, regs, rules).value;
      NoTrouble(rule => RuleValue(f, regs, cfa, rule), |regs|, rules, order);
    }
  }

  lemma DexPcOne(value: Valuation, total: nat, rules: Rules, done: seq<nat>, reg: nat)
    ensures
      DexPc(value, total, rules, done + [reg]) ==
      if MarksDex(value, total, rules, reg) then value(rules[reg]).value.value else DexPc(value, total, rules, done)
  {
    assert (done + [reg])[..|done|] == done;
  }

  ghost predicate IsValuation(value: Valuation, f: Frame, regs: seq<nat>, cfa: nat) {
    forall rule {:trigger RuleValue(f, regs, cfa, rule)} :: value(rule) == RuleValue(f, regs, cfa, rule)
  }

  /** Save a register, then recover it: the rule still sees the old registers. */
  method RecoverOne(f: Frame, rule: Location, reg: nat, cfa: nat, info: RegsInfo, ghost value: Valuation,
                    ghost was: seq<nat>, ghost rules: Rules, ghost done: seq<nat>)
    returns (r: Evaluated<Recovered>)
    requires info.Valid() && info.regs.Length == |was| <= MAX_REGISTERS
    requires Shadows(info, was, rules, done) && Applied(value, was, rules, done, info.regs[..])
    requires reg !in done && Applies(rules, |was|, reg) && rules[reg] == rule
    requires IsValuation(value, f, was, cfa)
    modifies info, info.savedRegs, info.regs
    ensures r == value(rule)
    ensures info.Valid() && Shadows(info, was, rules, done + [reg])
    ensures r.Known? ==> Applied(value, was, rules, done + [reg], info.regs[..])
  {
    ghost var now := info.regs[..];
    assert now[reg] == was[reg];
    info.Save(reg);
    assert info.savedRegs[..][reg] == was[reg];
    assert forall x :: x in info.savedRegMap && x < |was| ==> info.savedRegs[..][x] == info.savedRegs[x];
    assert info.View() == was by {
      forall x | 0 <= x < |was|
        ensures info.View()[x] == was[x]
      {
        assert info.regs[..][x] == info.regs[x];
      }
    }
    r := EvalRegister(f, rule, reg, cfa, info);
    AppliedOne(value, was, rules, done, now, reg);
  }

  /** What the loop has found out about the registers in `done`. */
  ghost predicate Noted(value: Valuation, total: nat, rules: Rules, returnReg: nat, done: seq<nat>,
                        returnAddressUndefined: bool, dexPc: nat) {
    && FirstTrouble(value, total, rules, done).Known?
    && (returnAddressUndefined <==> returnReg in done && ReturnUndefined(rules, returnReg))
    && dexPc == DexPc(value, total, rules, done)
  }

  lemma NotedOne(value: Valuation, total: nat, rules: Rules, returnReg: nat, done: seq<nat>, reg: nat,
                 returnAddressUndefined: bool, dexPc: nat)
    requires Noted(value, total, rules, returnReg, done, returnAddressUndefined, dexPc)
    requires returnReg < total && reg in rules && reg !in done
    ensures !Applies(rules, total, reg) ==>
      Noted(value, total, rules, returnReg, done + [reg], returnAddressUndefined, dexPc)
    ensures Applies(rules, total, reg) && value(rules[reg]).Known? ==>
      Noted(value, total, rules, returnReg, done + [reg],
            returnAddressUndefined || (rules[reg].Undefined? && reg == returnReg),
            if value(rules[reg]).value.SetDex? then value(rules[reg]).value.value else dexPc)
    ensures Applies(rules, total, reg) && !value(rules[reg]).Known? ==>
      FirstTrouble(value, total, rules, done + [reg]) == value(rules[reg]).PropagateFailure()
  {
    TroubleOne(value, total, rules, done, reg);
    DexPcOne(value, total, rules, done, reg);
  }

  /** The loop over the rule map. */
  method RecoverAll(f: Frame, rules: Rules, order: seq<nat>, cfa: nat, regs: array<nat>, ghost value: Valuation)
    returns (r: Evaluated<()>, returnAddressUndefined: bool, dexPc: nat)
    requires Enumerates(order, rules) && regs.Length <= MAX_REGISTERS && f.returnReg < regs.Length
    requires IsValuation(value, f, regs[..], cfa)
    modifies regs
    ensures r == FirstTrouble(value, regs.Length, rules, order)
    ensures r.Known? ==> Applied(value, old(regs[..]), rules, order, regs[..])
    ensures r.Known? ==> Noted(value, regs.Length, rules, f.returnReg, order, returnAddressUndefined, dexPc)
  {
    ghost var was := regs[..];
    var info := new RegsInfo(regs);
    returnAddressUndefined, dexPc := false, 0;
    var i := 0;
    while i < |order|
      invariant i <= |order| && info.Valid() && info.regs == regs && fresh(info) && fresh(info.savedRegs)
      invariant Applied(value, was, rules, order[..i], regs[..]) && Shadows(info, was, rules, order[..i])
      invariant Noted(value, |was|, rules, f.returnReg, order[..i], returnAddressUndefined, dexPc)
    {
      var reg := order[i];
      ghost var done := order[..i];
      NotYet(order, rules, i);
      assert order[..i + 1] == done + [reg];
      NotedOne(value, |was|, rules, f.returnReg, done, reg, returnAddressUndefined, dexPc);
      if reg != CFA_REG && reg < regs.Length {
        var e := RecoverOne(f, rules[reg], reg, cfa, info, value, was, rules, done);
        if !e.Known? {
          TroubleStays(value, |was|, rules, order, i + 1);
          return e.PropagateFailure(), false, 0;
        }
        if rules[reg].Undefined? && reg == f.returnReg {
          returnAddressUndefined := true;
        }
        if e.value.SetDex? {
          dexPc := e.value.value;
        }
      } else {
        AppliedOne(value, was, rules, done, regs[..], reg);
      }
      i := i + 1;
    }
    assert order[..i] == order;
    r := Known(());
  }

  /** `Eval` for one iteration order of the rule map: whatever the order, the same registers. */
  method Eval(f: Frame, rules: Rules, order: seq<nat>, regs: array<nat>)
    returns (r: Evaluated<()>, finished: bool, dexPc: nat)
    requires Enumerates(order, rules)
    requires regs.Length <= MAX_REGISTERS && f.pcReg < regs.Length && f.spReg < regs.Length
    modifies regs
    ensures r == Trouble(f, old(regs[..]), rules, order)
    ensures r.Known? == Succeeds(f, old(regs[..]), rules)
    ensures r.Known? ==>
      var was := old(regs[..]);
      var cfa := CfaValue(f, was, rules).value;
      var value := rule => RuleValue(f, was, cfa, rule);
      && (forall reg :: 0 <= reg < |was| ==> regs[reg] == FinalValue(f, value, was, cfa, rules, reg))
      && finished == (NewPc(value, was, rules, f.returnReg) == 0)
      && dexPc == DexPc(value, |was|, rules, order)
  {
    TroubleExactly(f, regs[..], rules, order);
    finished, dexPc := false, 0;
    if f.returnReg >= regs.Length {
      return Failing, finished, dexPc;
    }
    var cfa := CfaValue(f, regs[..], rules);
    if !cfa.Known? {
      return cfa.PropagateFailure(), finished, dexPc;
    }
    ghost var was := regs[..];
    ghost var value: Valuation := rule => RuleValue(f, was, cfa.value, rule);
    var returnAddressUndefined;
    r, returnAddressUndefined, dexPc := RecoverAll(f, rules, order, cfa.value, regs, value);
    if r.Known? {
      finished := SetPcAndSp(f, rules, order, cfa.value, regs, returnAddressUndefined, value, was);
    }
  }

  method SetPcAndSp(f: Frame, rules: Rules, order: seq<nat>, cfa: nat, regs: array<nat>, returnAddressUndefined: bool,
                    ghost value: Valuation, ghost was: seq<nat>)
    returns (finished: bool)
    requires Enumerates(order, rules) && Applied(value, was, rules, order, regs[..])
    requires f.returnReg < regs.Length && f.pcReg < regs.Length && f.spReg < regs.Length
    requires returnAddressUndefined == ReturnUndefined(rules, f.returnReg)
    modifies regs
    ensures forall reg :: 0 <= reg < regs.Length ==> regs[reg] == FinalValue(f, value, was, cfa, rules, reg)
    ensures finished == (NewPc(value, was, rules, f.returnReg) == 0)
  {
    assert forall reg :: 0 <= reg < regs.Length ==> regs[..][reg] == NewValue(value, was, rules, reg);
    if returnAddressUndefined {
      regs[f.pcReg] := 0;
    } else {
      regs[f.pcReg] := regs[f.returnReg];
    }
    finished := regs[f.pcReg] == 0;
    regs[f.spReg] := cfa;
  }

  // ---------------------------------------------------------------------------
  // The dex pc depends on the order

  lemma {:induction false} DexPcIsMarked(value: Valuation, total: nat, rules: Rules, order: seq<nat>)
    ensures
      var pc := DexPc(value, total, rules, order);
      if exists reg :: reg in order && MarksDex(value, total, rules, reg)
      then exists reg :: reg in order && MarksDex(value, total, rules, reg) && value(rules[reg]).value.value == pc
      else pc == 0
    decreases |order|
  {
    if order != [] {
      var last := order[|order| - 1];
      var rest := order[..|order| - 1];
      assert order == rest + [last];
      DexPcIsMarked(value, total, rules, rest);
    }
  }

  lemma {:induction false} OrderOf(keys: set<nat>) returns (order: seq<nat>)
    ensures forall reg :: reg in keys <==> reg in order
    ensures forall i, j :: 0 <= i < j < |order| ==> order[i] != order[j]
    decreases |keys|
  {
    if keys == {} {
      order := [];
    } else {
      var reg :| reg in keys;
      var rest := OrderOf(keys - {reg});
      order := rest + [reg];
    }
  }

  lemma OrderEndingWith(value: Valuation, total: nat, rules: Rules, reg: nat) returns (order: seq<nat>)
    requires MarksDex(value, total, rules, reg)
    ensures Enumerates(order, rules) && DexPc(value, total, rules, order) == value(rules[reg]).value.value
  {
    var rest := OrderOf(rules.Keys - {reg});
    order := rest + [reg];
    DexPcOne(value, total, rules, rest, reg);
  }

  /** The dex pc is the same for all iteration orders exactly when all marked expressions agree. */
  lemma DexPcOrderIndependentExactly(value: Valuation, total: nat, rules: Rules)
    ensures
      (forall order, order' :: Enumerates(order, rules) && Enumerates(order', rules) ==>
         DexPc(value, total, rules, order) == DexPc(value, total, rules, order'))
      <==>
      (forall r, r' :: MarksDex(value, total, rules, r) && MarksDex(value, total, rules, r') ==>
         value(rules[r]) == value(rules[r']))
  {
    if forall r, r' :: MarksDex(value, total, rules, r) && MarksDex(value, total, rules, r') ==>
         value(rules[r]) == value(rules[r']) {
      forall order, order' | Enumerates(order, rules) && Enumerates(order', rules)
        ensures DexPc(value, total, rules, order) == DexPc(value, total, rules, order')
      {
        DexPcIsMarked(value, total, rules, order);
        DexPcIsMarked(value, total, rules, order');
      }
    } else {
      var r, r' :| MarksDex(value, total, rules, r) && MarksDex(value, total, rules, r')
        && value(rules[r]) != value(rules[r']);
      var order := OrderEndingWith(value, total, rules, r);
      var order' := OrderEndingWith(value, total, rules, r');
    }
  }

  lemma RuleOfMarked(f: Frame, regs: seq<nat>, cfa: nat, length: nat, end: nat, v: nat)
    requires ExpressionValue(f, regs, length, end) == Known((v, true))
    ensures RuleValue(f, regs, cfa, ValExpression(length, end)) == Known(SetDex(v))
  {
  }

  lemma MarkedValue(f: Frame, regs: seq<nat>, start: nat, end: nat, n: nat)
    requires n < 32 && start == (end - 7) % TWO64 && end == start + 7
    requires Holds(f.section, start, DwarfExpression.Marked(n))
    ensures ExpressionValue(f, regs, 7, end) == Known((n, true))
  {
    var s := DwarfExpression.MarkedEvaluates(DwarfOp.Env(f.width, f.section, f.process, regs), start, end, n);
    ValueOfDone(s, n);
  }

  lemma ValueOfDone(s: DwarfOp.State, n: nat)
    requires s.stack == [n] && !s.isRegister
    ensures OutcomeValue(DwarfOp.Done(s, true)) == Known((n, true))
  {
  }

  lemma MarkedRule(value: Valuation, f: Frame, regs: seq<nat>, cfa: nat, end: nat, n: nat)
    requires IsValuation(value, f, regs, cfa) && ExpressionValue(f, regs, 7, end) == Known((n, true))
    ensures value(ValExpression(7, end)) == Known(SetDex(n))
  {
    RuleOfMarked(f, regs, cfa, 7, end, n);
  }

  /** Two registers with marked expressions that differ: the dex pc is 2 or 1, as the hash map has it. */
  lemma DexPcDependsOnOrder(f: Frame, regs: seq<nat>, cfa: nat, value: Valuation)
    requires IsValuation(value, f, regs, cfa) && |regs| >= 2
    requires Holds(f.section, 0, DwarfExpression.Marked(1)) && Holds(f.section, 7, DwarfExpression.Marked(2))
    ensures
      var rules := map[0 := ValExpression(7, 7), 1 := ValExpression(7, 14)];
      && Enumerates([0, 1], rules) && DexPc(value, |regs|, rules, [0, 1]) == 2
      && Enumerates([1, 0], rules) && DexPc(value, |regs|, rules, [1, 0]) == 1
  {
    MarkedRules(f, regs, cfa, value);
    DexOfTwo(value, |regs|, ValExpression(7, 7), ValExpression(7, 14), 1, 2);
  }

  lemma MarkedRules(f: Frame, regs: seq<nat>, cfa: nat, value: Valuation)
    requires IsValuation(value, f, regs, cfa)
    requires Holds(f.section, 0, DwarfExpression.Marked(1)) && Holds(f.section, 7, DwarfExpression.Marked(2))
    ensures value(ValExpression(7, 7)) == Known(SetDex(1)) && value(ValExpression(7, 14)) == Known(SetDex(2))
  {
    MarkedValue(f, regs, 0, 7, 1);
    MarkedRule(value, f, regs, cfa, 7, 1);
    MarkedValue(f, regs, 7, 14, 2);
    MarkedRule(value, f, regs, cfa, 14, 2);
  }

  lemma DexOfTwo(value: Valuation, total: nat, first: Location, second: Location, pc: nat, pc': nat)
    requires total >= 2 && value(first) == Known(SetDex(pc)) && value(second) == Known(SetDex(pc'))
    ensures
      var rules := map[0 := first, 1 := second];
      && Enumerates([0, 1], rules) && DexPc(value, total, rules, [0, 1]) == pc'
      && Enumerates([1, 0], rules) && DexPc(value, total, rules, [1, 0]) == pc
  {
    var rules := map[0 := first, 1 := second];
    DexPcOne(value, total, rules, [0], 1);
    DexPcOne(value, total, rules, [1], 0);
    assert [0] + [1] == [0, 1] && [1] + [0] == [1, 0];
  }
}
