/**
 The EHABI unwinder undoes a function's prologue: a sequence of integer pushes, stack-pointer
 decrements and VFP pushes, unwound by the instructions for them in reverse order.
 */
module ArmPrologue {
  import opened Basics
  import opened DwarfMemory
  import opened ArmExidx

  /** One step of a prologue, named after the unwinding instruction that undoes it. */
  datatype Save =
    | SaveLow(mask: nat)                    // push registers of r0-r3
    | SaveHigh(mask: nat)                   // push registers of r4-r15; bit 0 is r4
    | SaveRange(n: nat, lr: bool)           // push r4-r[4+n], and r14 if `lr`
    | Reserve(words: nat)                   // move sp down by up to 64 words
    | ReserveMore(words: nat)               // move sp down by 0x204 bytes and `words` words
    | SaveVfpX(first: nat, n: nat)          // FSTMFDX d[first]-d[first+n]
    | SaveVfpX8(n: nat)                     // FSTMFDX d8-d[8+n]
    | SaveVfpHigh(first: nat, n: nat)       // VPUSH d[16+first]-d[16+first+n]
    | SaveVfp(first: nat, n: nat)           // VPUSH d[first]-d[first+n]
    | SaveVfp8(n: nat)                      // VPUSH d8-d[8+n]

  predicate Encodable(p: Save) {
    match p
    case SaveLow(mask) => 0 < mask < 16
    case SaveHigh(mask) => 0 < mask < 4096
    case SaveRange(n, _) => n < 8
    case Reserve(words) => 0 < words <= 64
    case ReserveMore(_) => true
    case SaveVfpX(first, n) => first < 16 && n < 16
    case SaveVfpX8(n) => n < 8
    case SaveVfpHigh(first, n) => first < 16 && n < 16
    case SaveVfp(first, n) => first < 16 && n < 16
    case SaveVfp8(n) => n < 8
  }

  /** The integer registers the step pushes, the one at the lowest address first. */
  function Pushed(p: Save): seq<Reg>
    requires Encodable(p)
  {
    match p
    case SaveLow(mask) => Picked(mask, 0, 4)
    case SaveHigh(mask) => Picked(mask * 16, 4, 16)
    case SaveRange(n, lr) => if lr then Range(4, 5 + n) + [LR] else Range(4, 5 + n)
    case _ => []
  }

  /** How far the step moves the stack pointer down. FSTMFDX stores an extra word. */
  function Size(p: Save): nat
    requires Encodable(p)
  {
    match p
    case SaveLow(_) | SaveHigh(_) | SaveRange(_, _) => 4 * |Pushed(p)|
    case Reserve(words) => 4 * words
    case ReserveMore(words) => 0x204 + 4 * words
    case SaveVfpX(_, n) => 8 * (n + 1) + 4
    case SaveVfpX8(n) => 8 * (n + 1) + 4
    case SaveVfpHigh(_, n) => 8 * (n + 1)
    case SaveVfp(_, n) => 8 * (n + 1)
    case SaveVfp8(n) => 8 * (n + 1)
  }

  /** The instruction of section 9.3 of ARM IHI 0038B that undoes the step. */
  function Encode(p: Save): seq<byte>
    requires Encodable(p)
  {
    match p
    case SaveLow(mask) => [0xb1, mask]
    case SaveHigh(mask) => [0x80 + mask / 256, mask % 256]
    case SaveRange(n, lr) => [0xa0 + n + if lr then 8 else 0]
    case Reserve(words) => [words - 1]
    case ReserveMore(words) => [0xb2] + EncodeUleb(words)
    case SaveVfpX(first, n) => [0xb3, first * 16 + n]
    case SaveVfpX8(n) => [0xb8 + n]
    case SaveVfpHigh(first, n) => [0xc8, first * 16 + n]
    case SaveVfp(first, n) => [0xc9, first * 16 + n]
    case SaveVfp8(n) => [0xd0 + n]
  }

  ghost predicate AllEncodable(ps: seq<Save>) {
    forall i :: 0 <= i < |ps| ==> Encodable(ps[i])
  }

  /** The unwinding instructions of a whole prologue: the last step is undone first. */
  function Code(ps: seq<Save>): seq<byte>
    requires AllEncodable(ps)
  {
    if ps == [] then [] else Encode(ps[|ps| - 1]) + Code(ps[..|ps| - 1])
  }

  ghost function PushedSet(p: Save): set<Reg>
    requires Encodable(p)
  {
    set r | r in Pushed(p)
  }

  /** The registers some step of the prologue pushes. */
  ghost function SavedSet(ps: seq<Save>): set<Reg>
    requires AllEncodable(ps)
  {
    if ps == [] then {} else SavedSet(ps[..|ps| - 1]) + PushedSet(ps[|ps| - 1])
  }

  // ---------------------------------------------------------------------------
  // Running a prologue

  datatype Cpu = Cpu(regs: Registers, sp: word, memory: Memory)

  /** The words of these registers lie one after the other from `addr` up. */
  ghost predicate HasWords(memory: Memory, addr: nat, list: seq<Reg>, values: Registers)
    decreases |list|
  {
    list == [] || (Word(memory, addr) == Some(values[list[0]]) && HasWords(memory, addr + 4, list[1..], values))
  }

  /** The registers that `p` pushes lie from `at` up to `sp`. The value it stores for the stack
      pointer is the one from before the push. */
  ghost predicate SavedBelow(p: Save, regs: Registers, sp: word, at: word, memory: Memory)
    requires Encodable(p)
  {
    at + Size(p) == sp && HasWords(memory, at, Pushed(p), regs[SP := sp])
  }

  /** Memory at and above `addr` is the same. */
  ghost predicate SameFrom(memory: Memory, memory': Memory, addr: int) {
    forall a :: a >= addr && a in memory ==> a in memory' && memory'[a] == memory[a]
  }

  /** One step: it moves the stack pointer, stores the registers it pushes, and writes nothing
      at or above the old stack pointer. What else it writes below is left open. */
  ghost predicate Steps(p: Save, c: Cpu, c': Cpu)
    requires Encodable(p)
  {
    && c'.regs == c.regs && SavedBelow(p, c.regs, c.sp, c'.sp, c'.memory)
    && SameFrom(c.memory, c'.memory, c.sp)
  }

  ghost predicate RunsPrologue(ps: seq<Save>, cpus: seq<Cpu>)
    requires AllEncodable(ps)
  {
    |cpus| == |ps| + 1 && forall i :: 0 <= i < |ps| ==> Steps(ps[i], cpus[i], cpus[i + 1])
  }

  /** Everything a prologue saved is in the memory, below the stack pointer of its time. */
  ghost predicate Laid(ps: seq<Save>, cpus: seq<Cpu>, memory: Memory)
    requires AllEncodable(ps) && |cpus| == |ps| + 1
  {
    forall i :: 0 <= i < |ps| ==> SavedBelow(ps[i], cpus[0].regs, cpus[i].sp, cpus[i + 1].sp, memory)
  }

  /** Reads above the stack pointer do not see what is written below it. */
  lemma {:induction false} SameRead(memory: Memory, memory': Memory, addr: nat, size: nat)
    requires ReadFully(memory, addr, size).Some?
    requires SameFrom(memory, memory', addr)
    ensures ReadFully(memory', addr, size) == ReadFully(memory, addr, size)
    decreases size
  {
    if size > 0 {
      SameRead(memory, memory', addr + 1, size - 1);
    }
  }

  lemma {:induction false} SameWords(memory: Memory, memory': Memory, addr: nat, list: seq<Reg>, values: Registers)
    requires HasWords(memory, addr, list, values)
    requires SameFrom(memory, memory', addr)
    ensures HasWords(memory', addr, list, values)
    decreases |list|
  {
    if list != [] {
      SameRead(memory, memory', addr, 4);
      SameWords(memory, memory', addr + 4, list[1..], values);
    }
  }

  lemma StaysSaved(p: Save, regs: Registers, sp: word, at: word, memory: Memory, memory': Memory)
    requires Encodable(p) && SavedBelow(p, regs, sp, at, memory) && SameFrom(memory, memory', at)
    ensures SavedBelow(p, regs, sp, at, memory')
  {
    SameWords(memory, memory', at, Pushed(p), regs[SP := sp]);
  }

  /** The stack pointer goes down, and no step writes above where it was. */
  lemma {:induction false} WritesBelow(ps: seq<Save>, cpus: seq<Cpu>, i: nat, j: nat)
    requires AllEncodable(ps) && RunsPrologue(ps, cpus) && i <= j <= |ps|
    ensures cpus[j].regs == cpus[i].regs && cpus[j].sp <= cpus[i].sp
    ensures SameFrom(cpus[i].memory, cpus[j].memory, cpus[i].sp)
    decreases j - i
  {
    if i < j {
      WritesBelow(ps, cpus, i, j - 1);
      assert Steps(ps[j - 1], cpus[j - 1], cpus[j]);
    }
  }

  /** Running a prologue lays down everything it saves. */
  lemma PrologueLays(ps: seq<Save>, cpus: seq<Cpu>)
    requires AllEncodable(ps) && RunsPrologue(ps, cpus)
    ensures Laid(ps, cpus, cpus[|ps|].memory)
  {
    forall i | 0 <= i < |ps|
      ensures SavedBelow(ps[i], cpus[0].regs, cpus[i].sp, cpus[i + 1].sp, cpus[|ps|].memory)
    {
      assert Steps(ps[i], cpus[i], cpus[i + 1]);
      WritesBelow(ps, cpus, 0, i);
      WritesBelow(ps, cpus, i + 1, |ps|);
      StaysSaved(ps[i], cpus[0].regs, cpus[i].sp, cpus[i + 1].sp, cpus[i + 1].memory, cpus[|ps|].memory);
    }
  }

  // ---------------------------------------------------------------------------
  // Unwinding it

  /** What the instruction for a step does. */
  function Undo(p: Save): Op
    requires Encodable(p)
  {
    match p
    case SaveLow(_) | SaveHigh(_) | SaveRange(_, _) => Pop(Pushed(p))
    case _ => Add(Size(p))
  }

  lemma {:induction false} TakesLeb(bytes: seq<byte>, rest: seq<byte>, k: nat)
    requires DwarfMemory.Leb(bytes) && k + |bytes| <= 5
    ensures TakeLeb(bytes + rest, k) == LebDone(bytes, rest)
    decreases |bytes|
  {
    assert bytes == [bytes[0]] + bytes[1..];
    assert (bytes + rest)[1..] == bytes[1..] + rest;
    if |bytes| > 1 {
      TakesLeb(bytes[1..], rest, k + 1);
    } else {
      assert bytes[1..] + rest == rest;
    }
  }

  lemma FitsUleb(words: nat)
    requires 4 * words < TWO32
    ensures DwarfMemory.Leb(EncodeUleb(words)) && LebSum(EncodeUleb(words)) == words && |EncodeUleb(words)| <= 5
  {
    Pow128Values();
    UlebEncoding(words);
    UlebLength(words, 5);
  }

  lemma DispatchesUleb(data: seq<byte>)
    requires data != [] && data[0] == 0xb2
    ensures DecodeOp(data) == DecodeUleb(data[1..])
  {
  }

  lemma TakesWords(words: nat, rest: seq<byte>)
    requires 4 * words < TWO32
    ensures DecodeUleb(EncodeUleb(words) + rest) == Decoded(Add(0x204 + 4 * words), rest)
  {
    FitsUleb(words);
    TakesLeb(EncodeUleb(words), rest, 0);
  }

  lemma DecodesReserveMore(words: nat, rest: seq<byte>)
    requires 4 * words < TWO32
    ensures DecodeOp([0xb2] + EncodeUleb(words) + rest) == Decoded(Add(0x204 + 4 * words), rest)
  {
    var data := [0xb2] + EncodeUleb(words) + rest;
    TakesWords(words, rest);
    assert data[1..] == EncodeUleb(words) + rest;
    DispatchesUleb(data);
  }

  /** Instructions without an operand byte. */
  lemma DecodesShort(p: Save, rest: seq<byte>)
    requires p.SaveRange? || p.Reserve? || p.SaveVfpX8? || p.SaveVfp8?
    requires Encodable(p)
    ensures DecodeOp(Encode(p) + rest) == Decoded(Undo(p), rest)
  {
    assert (Encode(p) + rest)[1..] == rest;
  }

  // Instructions with one.

  lemma DecodesSaveLow(mask: nat, rest: seq<byte>)
    requires 0 < mask < 16
    ensures DecodeOp([0xb1, mask] + rest) == Decoded(Pop(Picked(mask, 0, 4)), rest)
  {
    var data := [0xb1, mask] + rest;
    assert data[1..] == [mask] + rest;
    assert data[1..][1..] == rest;
  }

  lemma DecodesSaveHigh(high: nat, low: nat, rest: seq<byte>)
    requires high < 16 && low < 256 && high + low > 0
    ensures DecodeOp([0x80 + high, low] + rest) == Decoded(Pop(Picked((high * 256 + low) * 16, 4, 16)), rest)
  {
    var data := [0x80 + high, low] + rest;
    assert data[1..] == [low] + rest;
    assert data[1..][1..] == rest;
  }

  lemma DecodesVfp(b: byte, first: nat, n: nat, rest: seq<byte>)
    requires (b == 0xb3 || b == 0xc8 || b == 0xc9) && first < 16 && n < 16
    ensures DecodeOp([b, first * 16 + n] + rest) == Decoded(Add(8 * n + if b == 0xb3 then 12 else 8), rest)
  {
    var data := [b, first * 16 + n] + rest;
    assert data[1..] == [first * 16 + n] + rest;
    assert data[1..][1..] == rest;
  }

  /** Every instruction is decoded as it was meant. */
  lemma DecodesBack(p: Save, rest: seq<byte>)
    requires Encodable(p) && Size(p) < TWO32
    ensures DecodeOp(Encode(p) + rest) == Decoded(Undo(p), rest)
  {
    match p
    case ReserveMore(words) => DecodesReserveMore(words, rest);
    case SaveRange(_, _) | Reserve(_) | SaveVfpX8(_) | SaveVfp8(_) => DecodesShort(p, rest);
    case SaveLow(mask) => DecodesSaveLow(mask, rest);
    case SaveHigh(mask) => DecodesSaveHigh(mask / 256, mask % 256, rest);
    case SaveVfpX(first, n) => DecodesVfp(0xb3, first, n, rest);
    case SaveVfpHigh(first, n) => DecodesVfp(0xc8, first, n, rest);
    case SaveVfp(first, n) => DecodesVfp(0xc9, first, n, rest);
  }

  /** Popping registers that lie in order at the stack pointer. */
  lemma {:induction false} PopsSaved(memory: Memory, regs: Registers, cfa: word, list: seq<Reg>, values: Registers)
    requires cfa + 4 * |list| < TWO32 && HasWords(memory, cfa, list, values)
    ensures
      var p := PopAll(memory, regs, cfa, list);
      && p.ok && p.cfa == cfa + 4 * |list|
      && forall r: Reg :: p.regs[r] == if r in list then values[r] else regs[r]
    decreases |list|
  {
    if list != [] {
      assert list == [list[0]] + list[1..];
      PopsSaved(memory, regs[list[0] := values[list[0]]], cfa + 4, list[1..], values);
    }
  }

  /** `s'` has the saved registers as they were in `regs`, and the others as in `s`. */
  ghost predicate Restores(s: State, s': State, saved: set<Reg>, regs: Registers) {
    && (forall r: Reg :: r != SP ==> s'.regs[r] == if r in saved then regs[r] else s.regs[r])
    && s'.pcSet == (s.pcSet || PC in saved)
  }

  lemma RestoresChain(s: State, s1: State, s2: State, first: set<Reg>, second: set<Reg>, regs: Registers)
    requires Restores(s, s1, first, regs) && Restores(s1, s2, second, regs)
    ensures Restores(s, s2, second + first, regs)
  {
  }

  lemma UndoesPush(p: Save, regs: Registers, sp: word, memory: Memory, s: State)
    requires Encodable(p) && Undo(p).Pop? && SavedBelow(p, regs, sp, s.cfa, memory)
    ensures
      var r := ArmExidx.Perform(memory, s, Undo(p));
      && r.More? && r.state.cfa == sp && r.state.data == s.data
      && Restores(s, r.state, PushedSet(p), regs)
  {
    PopsSaved(memory, s.regs, s.cfa, Pushed(p), regs[SP := sp]);
  }

  /** `step` is `Decode` on this memory. */
  ghost predicate IsDecode(step: State -> Outcome, memory: Memory) {
    forall s {:trigger ArmExidx.Decode(memory, s)} :: step(s) == ArmExidx.Decode(memory, s)
  }

  /** `n` instructions lead from `s` to `t`. */
  ghost predicate Reaches(step: State -> Outcome, s: State, n: nat, t: State)
    decreases n
  {
    if n == 0 then s == t else step(s).More? && Reaches(step, step(s).state, n - 1, t)
  }

  lemma {:induction false} RunReaches(memory: Memory, step: State -> Outcome, s: State, n: nat, t: State)
    requires IsDecode(step, memory) && Reaches(step, s, n, t)
    ensures Run(memory, s) == Run(memory, t)
    decreases n
  {
    if n > 0 {
      var next := ArmExidx.Decode(memory, s);
      assert step(s) == next;
      RunReaches(memory, step, next.state, n - 1, t);
    }
  }

  /** The instruction for a step undoes it. */
  lemma UndoesStep(p: Save, regs: Registers, sp: word, memory: Memory, step: State -> Outcome, s: State,
                   rest: seq<byte>)
    requires Encodable(p) && SavedBelow(p, regs, sp, s.cfa, memory)
    requires IsDecode(step, memory) && s.data == Encode(p) + rest
    ensures step(s).More?
    ensures var s' := step(s).state; s'.cfa == sp && s'.data == rest && Restores(s, s', PushedSet(p), regs)
  {
    DecodesBack(p, rest);
    assert step(s) == ArmExidx.Decode(memory, s);
    if Undo(p).Pop? {
      UndoesPush(p, regs, sp, memory, s.(data := rest));
    }
  }

  lemma CodeOfLast(ps: seq<Save>, rest: seq<byte>)
    requires AllEncodable(ps) && ps != []
    ensures Code(ps) + rest == Encode(ps[|ps| - 1]) + (Code(ps[..|ps| - 1]) + rest)
  {
  }

  lemma {:induction false} UndoesAll(
    ps: seq<Save>, cpus: seq<Cpu>, memory: Memory, step: State -> Outcome, s: State, n: nat, rest: seq<byte>)
    returns (s': State)
    requires AllEncodable(ps) && RunsPrologue(ps, cpus) && Laid(ps, cpus, memory) && IsDecode(step, memory)
    requires n <= |ps| && s.cfa == cpus[n].sp && s.data == Code(ps[..n]) + rest
    ensures Reaches(step, s, n, s')
    ensures s'.cfa == cpus[0].sp && s'.data == rest && Restores(s, s', SavedSet(ps[..n]), cpus[0].regs)
    decreases n
  {
    if n == 0 {
      s' := s;
    } else {
      UndoesLast(ps, cpus, memory, step, s, n, rest);
      s' := UndoesAll(ps, cpus, memory, step, step(s).state, n - 1, rest);
      SavedByLast(ps, n);
      RestoresChain(s, step(s).state, s', PushedSet(ps[n - 1]), SavedSet(ps[..n - 1]), cpus[0].regs);
    }
  }

  /** The first instruction undoes the last step. */
  lemma UndoesLast(ps: seq<Save>, cpus: seq<Cpu>, memory: Memory, step: State -> Outcome, s: State, n: nat,
                   rest: seq<byte>)
    requires AllEncodable(ps) && RunsPrologue(ps, cpus) && Laid(ps, cpus, memory) && IsDecode(step, memory)
    requires 0 < n <= |ps| && s.cfa == cpus[n].sp && s.data == Code(ps[..n]) + rest
    ensures step(s).More?
    ensures
      var s' := step(s).state;
      && s'.cfa == cpus[n - 1].sp && s'.data == Code(ps[..n - 1]) + rest
      && Restores(s, s', PushedSet(ps[n - 1]), cpus[0].regs)
  {
    assert ps[..n][..n - 1] == ps[..n - 1] && ps[..n][n - 1] == ps[n - 1];
    CodeOfLast(ps[..n], rest);
    UndoesStep(ps[n - 1], cpus[0].regs, cpus[n - 1].sp, memory, step, s, Code(ps[..n - 1]) + rest);
  }

  lemma SavedByLast(ps: seq<Save>, n: nat)
    requires AllEncodable(ps) && 0 < n <= |ps|
    ensures SavedSet(ps[..n]) == PushedSet(ps[n - 1]) + SavedSet(ps[..n - 1])
  {
    assert ps[..n][..n - 1] == ps[..n - 1] && ps[..n][n - 1] == ps[n - 1];
  }

  lemma RunFinishes(memory: Memory, s: State, tail: seq<byte>)
    requires s.data == [0xb0] + tail
    ensures Run(memory, s) == Stopped(Finish, s.(data := tail))
  {
    assert s.data[1..] == tail;
  }

  /** `end` has the caller's stack pointer and every register the prologue saved; the other
      registers are as the function's body left them in `s`. */
  ghost predicate Unwound(ps: seq<Save>, caller: Cpu, s: State, end: State)
    requires AllEncodable(ps)
  {
    && end.cfa == caller.sp
    && (forall r: Reg :: r != SP ==> end.regs[r] == if r in SavedSet(ps) then caller.regs[r] else s.regs[r])
    && (end.pcSet <==> PC in SavedSet(ps))
  }

  /** What the function's body must not do: overwrite what the prologue has laid down. */
  ghost predicate KeepsSaved(ps: seq<Save>, cpus: seq<Cpu>, memory: Memory)
    requires AllEncodable(ps) && |cpus| == |ps| + 1
  {
    Laid(ps, cpus, cpus[|ps|].memory) ==> Laid(ps, cpus, memory)
  }

  /** Evaluating the code of a prologue that has run undoes it and goes on with what follows the
      code. */
  lemma EvalUndoesPrologue(ps: seq<Save>, cpus: seq<Cpu>, memory: Memory, s: State, rest: seq<byte>) returns (t: State)
    requires AllEncodable(ps) && RunsPrologue(ps, cpus)
    requires KeepsSaved(ps, cpus, memory)
    requires s.cfa == cpus[|ps|].sp && s.data == Code(ps) + rest
    ensures Eval(memory, s) == Run(memory, t) && t.data == rest && Unwound(ps, cpus[0], s, t)
  {
    PrologueLays(ps, cpus);
    var step := (x: State) => ArmExidx.Decode(memory, x);
    var start := s.(pcSet := false);
    assert ps[..|ps|] == ps;
    t := UndoesAll(ps, cpus, memory, step, start, |ps|, rest);
    RunReaches(memory, step, start, |ps|, t);
  }

  /** Closed by a finish instruction, the code of a prologue that has run gives back the caller's
      stack pointer and every register it saved, and leaves the others alone. */
  lemma EvalRestoresCaller(ps: seq<Save>, cpus: seq<Cpu>, memory: Memory, s: State, tail: seq<byte>)
    requires AllEncodable(ps) && RunsPrologue(ps, cpus)
    requires KeepsSaved(ps, cpus, memory)
    requires s.cfa == cpus[|ps|].sp && s.data == Code(ps) + ([0xb0] + tail)
    ensures var r := Eval(memory, s); r.status == Finish && r.state.data == tail && Unwound(ps, cpus[0], s, r.state)
  {
    var t := EvalUndoesPrologue(ps, cpus, memory, s, [0xb0] + tail);
    RunFinishes(memory, t, tail);
  }

  /** Without one it runs out of instructions. */
  lemma EvalWithoutFinish(ps: seq<Save>, cpus: seq<Cpu>, memory: Memory, s: State)
    requires AllEncodable(ps) && RunsPrologue(ps, cpus)
    requires KeepsSaved(ps, cpus, memory)
    requires s.cfa == cpus[|ps|].sp && s.data == Code(ps)
    ensures Eval(memory, s).status == Truncated
  {
    assert Code(ps) + [] == Code(ps);
    var t := EvalUndoesPrologue(ps, cpus, memory, s, []);
    RunOfNothing(memory, t);
  }

  lemma RunOfNothing(memory: Memory, s: State)
    requires s.data == []
    ensures Run(memory, s).status == Truncated
  {
  }
}
