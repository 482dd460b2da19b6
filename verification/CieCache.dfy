/**
 `GetCfaLocationInfo` of DwarfSection.cpp: the rules a CIE sets up are computed for the first
 FDE that asks and reused for every later FDE of that CIE.
 */
module CieCache {
  import opened Basics
  import opened DwarfCfa

  /** Running the CIE program, as done when its rules are not cached. The final machine's
      rules go into the cache; its state stack is inherited by the FDE program. */
  function RunCie(w: Width, fde: Fde, pc: nat): Result<Machine> {
    var c := Context(w, fde, None);
    var r :- Run(c, fde.cie.program, 0, Enter(c, map[], []), pc);
    Success(r.0)
  }

  /** Running the FDE program on top of the CIE's rules. */
  function RunFde(w: Width, fde: Fde, cieRules: Rules, rules: Rules, states: seq<Row>, pc: nat): Result<LocRegs> {
    var c := Context(w, fde, Some(cieRules));
    var r :- Run(c, fde.program, 0, Enter(c, rules, states), pc);
    Success(Finish(r.0, r.1))
  }

  /** `GetCfaLocationInfo` when the CIE is not cached. */
  function Cold(w: Width, fde: Fde, pc: nat): Result<LocRegs> {
    var m :- RunCie(w, fde, pc);
    RunFde(w, fde, m.row.rules, m.row.rules, m.states, pc)
  }

  /** `GetCfaLocationInfo` when the CIE is cached with `cieRules`. */
  function Warm(w: Width, fde: Fde, cieRules: Rules, pc: nat): Result<LocRegs> {
    RunFde(w, fde, cieRules, map[], [], pc)
  }

  /** A context in which to look at a CIE with no FDE in sight. */
  function CieContext(w: Width, cie: Cie): Context {
    Context(w, Fde(0, 1, 0, cie, []), None)
  }

  /** What the first `n` instructions of a CIE program do. */
  function OutcomeAt(w: Width, cie: Cie, n: nat): Result<Machine>
    requires n <= |cie.program|
  {
    After(CieContext(w, cie), cie.program, Machine(0, Row(map[], 0), []), n)
  }

  /** What the whole CIE program does. */
  function Outcome(w: Width, cie: Cie): Result<Machine> {
    OutcomeAt(w, cie, |cie.program|)
  }

  // ---------------------------------------------------------------------------
  // The CIE program does not see the FDE

  /** Equal but for locations. */
  predicate SameRules(a: Machine, b: Machine) {
    && a.row.rules == b.row.rules
    && |a.states| == |b.states|
    && forall i :: 0 <= i < |a.states| ==> a.states[i].rules == b.states[i].rules
  }

  lemma {:induction false} ExecSameRules(c: Context, c': Context, a: Machine, b: Machine, i: Instruction)
    requires c.width == c'.width && c.fde.cie == c'.fde.cie && c.cieRules == c'.cieRules
    requires SameRules(a, b)
    ensures
      match Exec(c, a, i)
      case Success(a') => Exec(c', b, i).Success? && SameRules(a', Exec(c', b, i).value)
      case Failure(error) => Exec(c', b, i) == Failure(error)
  {
  }

  lemma {:induction false} AfterSameRules(c: Context, c': Context, program: seq<Instruction>, a: Machine, b: Machine,
                                          n: nat)
    requires c.width == c'.width && c.fde.cie == c'.fde.cie && c.cieRules == c'.cieRules
    requires SameRules(a, b) && n <= |program|
    ensures
      match After(c, program, a, n)
      case Success(a') => After(c', program, b, n).Success? && SameRules(a', After(c', program, b, n).value)
      case Failure(error) => After(c', program, b, n) == Failure(error)
  {
    if n > 0 {
      AfterSameRules(c, c', program, a, b, n - 1);
      if After(c, program, a, n - 1).Success? {
        ExecSameRules(c, c', Refresh(After(c, program, a, n - 1).value),
                      Refresh(After(c', program, b, n - 1).value), program[n - 1]);
      }
    }
  }

  lemma {:induction false} SameLocations(c: Context, c': Context, program: seq<Instruction>, start: nat, n: nat)
    requires c.width == c'.width && c.fde.cie == c'.fde.cie && n <= |program|
    ensures LocAt(c, program, start, n) == LocAt(c', program, start, n)
    ensures Floor(c, program, start, n) == Floor(c', program, start, n)
  {
    if n > 0 {
      SameLocations(c, c', program, start, n - 1);
    }
  }

  // ---------------------------------------------------------------------------
  // Where the CIE program can stop

  /** An FDE that starts at `start` has a pc for which the CIE program stops after `n` instructions:
      there it gets to a location above all those before. */
  predicate RisesFrom(w: Width, cie: Cie, n: nat, start: nat)
    requires n <= |cie.program|
  {
    var c := CieContext(w, cie);
    0 < n && start < w.Modulus() && Floor(c, cie.program, start, n) < LocAt(c, cie.program, start, n)
  }

  ghost predicate CanStopAfter(w: Width, cie: Cie, n: nat)
    requires n <= |cie.program|
  {
    n == |cie.program| || exists start: nat :: RisesFrom(w, cie, n, start)
  }

  /** Wherever the CIE program can stop, its rules are already the final ones and it has restored
      every state it remembered. */
  ghost predicate Settled(w: Width, cie: Cie) {
    && Outcome(w, cie).Success?
    && forall n :: 0 <= n <= |cie.program| && CanStopAfter(w, cie, n) ==>
         SettledAfter(w, cie, n, Outcome(w, cie).value.row.rules)
  }

  predicate SettledAfter(w: Width, cie: Cie, n: nat, rules: Rules)
    requires n <= |cie.program|
  {
    var r := OutcomeAt(w, cie, n);
    r.Success? && r.value.row.rules == rules && r.value.states == []
  }

  /** Wherever the CIE program can stop, it has already failed. */
  ghost predicate AlwaysFails(w: Width, cie: Cie) {
    forall n :: 0 <= n <= |cie.program| && CanStopAfter(w, cie, n) ==> OutcomeAt(w, cie, n).Failure?
  }

  /** For a pc of the FDE the CIE's rules and remembered rules are those of the CIE alone, up to
      a point where it can stop. */
  lemma {:induction false} CieRunStops(w: Width, fde: Fde, pc: nat) returns (n: nat)
    requires w.Truncate(fde.pcStart) <= pc
    ensures n <= |fde.cie.program| && CanStopAfter(w, fde.cie, n)
    ensures
      match OutcomeAt(w, fde.cie, n)
      case Success(m) => RunCie(w, fde, pc).Success? && SameRules(RunCie(w, fde, pc).value, m)
      case Failure(_) => RunCie(w, fde, pc).Failure?
  {
    var c := Context(w, fde, None);
    var program := fde.cie.program;
    var m := Enter(c, map[], []);
    n := Stop(c, program, m.curPc, 0, pc);
    RunIsAfterStop(c, program, m, 0, pc);
    AfterSameRules(c, CieContext(w, fde.cie), program, m, Machine(0, Row(map[], 0), []), n);
    if n < |program| {
      StopExactly(c, program, m.curPc, n, pc);
      SameLocations(c, CieContext(w, fde.cie), program, m.curPc, n);
      assert RisesFrom(w, fde.cie, n, m.curPc);
    }
  }

  /** The FDE from `start` through `pc` with a program of its own. */
  function FdeOf(cie: Cie, start: nat, pc: nat, program: seq<Instruction>): Fde {
    Fde(start, pc + 1, 0, cie, program)
  }

  /** A pc for which the program stops after `n` instructions: the highest location before. */
  lemma StopIsReached(w: Width, cie: Cie, n: nat) returns (start: nat, pc: nat)
    requires n <= |cie.program| && CanStopAfter(w, cie, n)
    ensures start <= pc && w.Truncate(start) == start
    ensures Stop(CieContext(w, cie), cie.program, start, 0, pc) == n
  {
    var c := CieContext(w, cie);
    if n == |cie.program| {
      start, pc := 0, Floor(c, cie.program, 0, n);
    } else {
      start :| RisesFrom(w, cie, n, start);
      pc := Floor(c, cie.program, start, n);
      assert LocAt(c, cie.program, start, 0) == start;
      StopExactly(c, cie.program, start, n, pc);
    }
    SmallIsKept(w, start);
  }

  lemma {:induction false} SameStop(c: Context, c': Context, program: seq<Instruction>, start: nat, i: nat, pc: nat)
    requires c.width == c'.width && c.fde.cie == c'.fde.cie && i <= |program|
    ensures Stop(c, program, start, i, pc) == Stop(c', program, start, i, pc)
    decreases |program| - i
  {
    SameLocations(c, c', program, start, i);
    if i < |program| && LocAt(c, program, start, i) <= pc {
      SameStop(c, c', program, start, i + 1, pc);
    }
  }

  /** Every point where the CIE program can stop is reached by an FDE with any program. */
  lemma {:induction false} CieRunReaches(w: Width, cie: Cie, n: nat) returns (start: nat, pc: nat)
    requires n <= |cie.program| && CanStopAfter(w, cie, n)
    ensures start <= pc && w.Truncate(start) == start
    ensures forall program {:trigger FdeOf(cie, start, pc, program)} ::
      var run := RunCie(w, FdeOf(cie, start, pc, program), pc);
      match OutcomeAt(w, cie, n)
      case Success(m) => run.Success? && SameRules(run.value, m)
      case Failure(_) => run.Failure?
  {
    start, pc := StopIsReached(w, cie, n);
    forall program {:trigger FdeOf(cie, start, pc, program)}
      ensures
        var run := RunCie(w, FdeOf(cie, start, pc, program), pc);
        match OutcomeAt(w, cie, n)
        case Success(m) => run.Success? && SameRules(run.value, m)
        case Failure(_) => run.Failure?
    {
      var c := Context(w, FdeOf(cie, start, pc, program), None);
      var m := Enter(c, map[], []);
      SameStop(c, CieContext(w, cie), cie.program, start, 0, pc);
      RunIsAfterStop(c, cie.program, m, 0, pc);
      AfterSameRules(c, CieContext(w, cie), cie.program, m, Machine(0, Row(map[], 0), []), n);
    }
  }

  /** At or after the FDE's start, a settled CIE program gives the rules of the CIE alone. */
  lemma {:induction false} CieRunIsOutcome(w: Width, fde: Fde, pc: nat)
    requires (Settled(w, fde.cie) || AlwaysFails(w, fde.cie)) && w.Truncate(fde.pcStart) <= pc
    ensures
      match Outcome(w, fde.cie)
      case Success(m) =>
        var run := RunCie(w, fde, pc);
        run.Success? && run.value.row.rules == m.row.rules && run.value.states == []
      case Failure(_) => RunCie(w, fde, pc).Failure?
  {
    var n := CieRunStops(w, fde, pc);
    assert CanStopAfter(w, fde.cie, |fde.cie.program|);
    if Settled(w, fde.cie) {
      assert SettledAfter(w, fde.cie, n, Outcome(w, fde.cie).value.row.rules);
    }
  }

  // ---------------------------------------------------------------------------
  // Caching is transparent, and exactly when

  /** Merging the CIE's rules into themselves, or into no rules, gives the same start. */
  lemma SameEntry(c: Context, rules: Rules, states: seq<Row>)
    requires c.cieRules == Some(rules)
    ensures Enter(c, rules, states) == Enter(c, map[], states)
  {
    assert rules + rules == rules;
    assert map[] + rules == rules;
  }

  /** Where the FDE starts after `pc`, the CIE program is not run at all: nothing is found and
      an empty rule map is cached. */
  lemma ColdBeforeStart(w: Width, fde: Fde, pc: nat)
    requires pc < w.Truncate(fde.pcStart)
    ensures RunCie(w, fde, pc).Success? && RunCie(w, fde, pc).value.row.rules == map[]
    ensures var start := w.Truncate(fde.pcStart); Cold(w, fde, pc) == Success(LocRegs(map[], start, start))
  {
  }

  lemma WarmBeforeStart(w: Width, fde: Fde, cieRules: Rules, pc: nat)
    requires pc < w.Truncate(fde.pcStart)
    ensures var start := w.Truncate(fde.pcStart); Warm(w, fde, cieRules, pc) == Success(LocRegs(cieRules, start, start))
  {
    assert map[] + cieRules == cieRules;
  }

  /** For a settled CIE program, the cached rules give the result of a full computation exactly
      when the pc is not before the FDE (or the CIE sets no rules at all). */
  lemma CieCacheTransparentExactly(w: Width, fde: Fde, pc: nat)
    requires Settled(w, fde.cie)
    ensures
      var cieRules := Outcome(w, fde.cie).value.row.rules;
      Cold(w, fde, pc) == Warm(w, fde, cieRules, pc) <==> w.Truncate(fde.pcStart) <= pc || cieRules == map[]
  {
    var cieRules := Outcome(w, fde.cie).value.row.rules;
    if w.Truncate(fde.pcStart) <= pc {
      CieRunIsOutcome(w, fde, pc);
      SameEntry(Context(w, fde, Some(cieRules)), cieRules, []);
    } else {
      ColdBeforeStart(w, fde, pc);
      WarmBeforeStart(w, fde, cieRules, pc);
    }
  }

  /** The FDE has this CIE and contains the pc, as `GetFdeFromPc` sees to. */
  predicate Asked(cie: Cie, fde: Fde, pc: nat) {
    fde.cie == cie && fde.pcStart <= pc < fde.pcEnd
  }

  /** Whatever pc of whatever FDE filled the cache, it changes no result for a pc of an FDE. */
  ghost predicate Transparent(w: Width, cie: Cie) {
    forall first: Fde, pc0: nat, fde: Fde, pc: nat {:trigger ServesFrom(w, first, pc0, fde, pc)} ::
      Asked(cie, first, pc0) && Asked(cie, fde, pc) ==> ServesFrom(w, first, pc0, fde, pc)
  }

  lemma TruncateBelow(w: Width, x: nat)
    ensures w.Truncate(x) <= x
  {
  }

  predicate ServesFrom(w: Width, first: Fde, pc0: nat, fde: Fde, pc: nat) {
    var run := RunCie(w, first, pc0);
    run.Success? ==> Cold(w, fde, pc) == Warm(w, fde, run.value.row.rules, pc)
  }

  /** A program that tells an inherited state from none: it edits register 0 away from what `top`
      says about it, then restores. */
  function Telltale(top: Rules): seq<Instruction> {
    [if 0 in top then SameValue(0) else UndefinedReg(0), RestoreState]
  }

  lemma TelltaleRun(c: Context, top: Rules, states: seq<Row>, pc: nat)
    requires c.cieRules.Some? && c.fde.program == Telltale(top) && c.width.Truncate(c.fde.pcStart) <= pc
    ensures
      var m := Enter(c, map[], states);
      var edited := if 0 in top then m.row.rules - {0} else m.row.rules[0 := Undefined];
      var r := Run(c, c.fde.program, 0, m, pc);
      r.Success? && r.value.0.row.rules == if states == [] then edited else states[|states| - 1].rules
  {
    var m := Enter(c, map[], states);
    var program := c.fde.program;
    var m1 := Exec(c, Refresh(m), program[0]).value;
    var m2 := Exec(c, Refresh(m1), program[1]).value;
    AfterStep(c, program, m, 0, m, m1);
    AfterStep(c, program, m, 1, m1, m2);
    assert Stop(c, program, m.curPc, 0, pc) == 2;
    RunIsAfterStop(c, program, m, 0, pc);
  }

  lemma TelltaleTells(w: Width, fde: Fde, cieRules: Rules, states: seq<Row>, pc: nat)
    requires states != [] && fde.program == Telltale(states[|states| - 1].rules) && w.Truncate(fde.pcStart) <= pc
    ensures RunFde(w, fde, cieRules, cieRules, states, pc) != RunFde(w, fde, cieRules, map[], [], pc)
  {
    var top := states[|states| - 1].rules;
    var c := Context(w, fde, Some(cieRules));
    SameEntry(c, cieRules, states);
    var edited := if 0 in top then cieRules - {0} else cieRules[0 := Undefined];
    TelltaleRun(c, top, states, pc);
    TelltaleRun(c, top, [], pc);
    assert map[] + cieRules == cieRules;
    assert 0 in edited <==> 0 !in top;
  }

  /** A CIE that can stop with a remembered state is not transparent. */
  lemma TransparentRestores(w: Width, cie: Cie, n: nat)
    requires Transparent(w, cie) && n <= |cie.program| && CanStopAfter(w, cie, n) && OutcomeAt(w, cie, n).Success?
    ensures OutcomeAt(w, cie, n).value.states == []
  {
    var m := OutcomeAt(w, cie, n).value;
    if m.states != [] {
      var start, pc := CieRunReaches(w, cie, n);
      var fde := FdeOf(cie, start, pc, Telltale(m.states[|m.states| - 1].rules));
      var run := RunCie(w, fde, pc).value;
      assert ServesFrom(w, fde, pc, fde, pc);
      TelltaleTells(w, fde, run.row.rules, run.states, pc);
    }
  }

  /** With no FDE program, the rules are those of the CIE. */
  lemma EmptyProgram(w: Width, fde: Fde, cieRules: Rules, rules: Rules, states: seq<Row>, pc: nat)
    requires fde.program == [] && (rules == map[] || rules == cieRules)
    ensures
      var r := RunFde(w, fde, cieRules, rules, states, pc);
      r.Success? && r.value.rules == cieRules
  {
    assert rules + cieRules == cieRules;
  }

  /** Of a transparent CIE, all points where its program can stop have the same rules, or all fail. */
  lemma TransparentAgrees(w: Width, cie: Cie, n: nat, n': nat)
    requires Transparent(w, cie) && n <= |cie.program| && n' <= |cie.program|
    requires CanStopAfter(w, cie, n) && CanStopAfter(w, cie, n') && OutcomeAt(w, cie, n).Success?
    ensures OutcomeAt(w, cie, n').Success?
    ensures OutcomeAt(w, cie, n').value.row.rules == OutcomeAt(w, cie, n).value.row.rules
  {
    var start, pc := CieRunReaches(w, cie, n);
    var start', pc' := CieRunReaches(w, cie, n');
    var first := FdeOf(cie, start, pc, []);
    var fde := FdeOf(cie, start', pc', []);
    var cached := RunCie(w, first, pc).value.row.rules;
    assert ServesFrom(w, first, pc, fde, pc');
    EmptyProgram(w, fde, cached, map[], [], pc');
    var run := RunCie(w, fde, pc');
    if run.Success? {
      EmptyProgram(w, fde, run.value.row.rules, run.value.row.rules, run.value.states, pc');
    }
  }

  /** Over all FDEs and pcs, and whichever came first, caching is invisible exactly when the CIE
      program is settled wherever it can stop, or never gets that far. */
  lemma CieCacheTransparentForAllFdesExactly(w: Width, cie: Cie)
    ensures Transparent(w, cie) <==> Settled(w, cie) || AlwaysFails(w, cie)
  {
    var end := |cie.program|;
    assert CanStopAfter(w, cie, end);
    if Settled(w, cie) || AlwaysFails(w, cie) {
      forall first: Fde, pc0: nat, fde: Fde, pc: nat | Asked(cie, first, pc0) && Asked(cie, fde, pc)
        ensures ServesFrom(w, first, pc0, fde, pc)
      {
        TruncateBelow(w, first.pcStart);
        TruncateBelow(w, fde.pcStart);
        CieRunIsOutcome(w, first, pc0);
        if Settled(w, cie) {
          CieCacheTransparentExactly(w, fde, pc);
        }
      }
    } else if Transparent(w, cie) {
      var n :| 0 <= n <= end && CanStopAfter(w, cie, n) && OutcomeAt(w, cie, n).Success?;
      TransparentAgrees(w, cie, n, end);
      forall n' | 0 <= n' <= end && CanStopAfter(w, cie, n')
        ensures SettledAfter(w, cie, n', Outcome(w, cie).value.row.rules)
      {
        TransparentAgrees(w, cie, end, n');
        TransparentRestores(w, cie, n');
      }
    }
  }

  // ---------------------------------------------------------------------------
  // CIE programs that only advance

  predicate Advances(cie: Cie, n: nat)
    requires 0 < n <= |cie.program|
  {
    cie.program[n - 1].AdvanceLoc? && cie.program[n - 1].delta * cie.codeAlign > 0
  }

  /** How far the first `n` instructions advance. */
  function Distance(cie: Cie, n: nat): nat
    requires n <= |cie.program|
  {
    if n == 0 then 0
    else Distance(cie, n - 1) + if cie.program[n - 1].AdvanceLoc? then cie.program[n - 1].delta * cie.codeAlign else 0
  }

  /** No DW_CFA_set_loc, and no wrap-around. */
  predicate OnlyAdvances(w: Width, cie: Cie) {
    && (forall i :: i in cie.program ==> !i.SetLoc?)
    && Distance(cie, |cie.program|) < w.Modulus()
  }

  lemma {:induction false} DistanceGrows(cie: Cie, n: nat, n': nat)
    requires n <= n' <= |cie.program|
    ensures Distance(cie, n) <= Distance(cie, n')
    decreases n' - n
  {
    if n < n' {
      DistanceGrows(cie, n, n' - 1);
    }
  }

  lemma NextIsDistance(w: Width, cie: Cie, n: nat)
    requires OnlyAdvances(w, cie) && 0 < n <= |cie.program|
    ensures NextLoc(CieContext(w, cie), Distance(cie, n - 1), cie.program[n - 1]) == Distance(cie, n)
  {
    assert cie.program[n - 1] in cie.program;
    DistanceGrows(cie, n, |cie.program|);
    SmallIsKept(w, Distance(cie, n));
  }

  /** From location 0 an advancing program never wraps around. */
  lemma {:induction false} LocationIsDistance(w: Width, cie: Cie, n: nat)
    requires OnlyAdvances(w, cie) && n <= |cie.program|
    ensures LocAt(CieContext(w, cie), cie.program, 0, n) == Distance(cie, n)
  {
    if n > 0 {
      LocationIsDistance(w, cie, n - 1);
      NextIsDistance(w, cie, n);
    }
  }

  lemma {:induction false} FloorIsDistance(w: Width, cie: Cie, n: nat)
    requires OnlyAdvances(w, cie) && 0 < n <= |cie.program|
    ensures Floor(CieContext(w, cie), cie.program, 0, n) == Distance(cie, n - 1)
  {
    LocationIsDistance(w, cie, n - 1);
    if n > 1 {
      FloorIsDistance(w, cie, n - 1);
      DistanceGrows(cie, n - 2, n - 1);
    }
  }

  /** An advancing program can stop exactly at its advances and at its end. */
  lemma StopsAtAdvances(w: Width, cie: Cie, n: nat)
    requires OnlyAdvances(w, cie) && n <= |cie.program|
    ensures CanStopAfter(w, cie, n) <==> n == |cie.program| || (0 < n && Advances(cie, n))
  {
    var c := CieContext(w, cie);
    if 0 < n {
      assert cie.program[n - 1] in cie.program;
      if Advances(cie, n) {
        LocationIsDistance(w, cie, n);
        FloorIsDistance(w, cie, n);
        assert RisesFrom(w, cie, n, 0);
      } else {
        forall start: nat | start < w.Modulus()
          ensures !RisesFrom(w, cie, n, start)
        {
          StaysUnlessAdvanced(c, cie.program, start, n);
        }
      }
    }
  }

  lemma StaysUnlessAdvanced(c: Context, program: seq<Instruction>, start: nat, n: nat)
    requires 0 < n <= |program| && start < c.width.Modulus() && !program[n - 1].SetLoc?
    requires program[n - 1].AdvanceLoc? ==> program[n - 1].delta * c.fde.cie.codeAlign == 0
    ensures LocAt(c, program, start, n) == LocAt(c, program, start, n - 1)
  {
    LocationFits(c, program, start, n - 1);
    SmallIsKept(c.width, LocAt(c, program, start, n - 1));
  }

  lemma {:induction false} LocationFits(c: Context, program: seq<Instruction>, start: nat, n: nat)
    requires n <= |program| && start < c.width.Modulus()
    ensures LocAt(c, program, start, n) < c.width.Modulus()
  {
    if n > 0 {
      LocationFits(c, program, start, n - 1);
    }
  }

  /** For a CIE program that only advances, caching is invisible exactly when at each advance the
      rules are already the final ones and no state is remembered, and none is left at the end. */
  lemma AdvancingCieTransparentExactly(w: Width, cie: Cie)
    requires OnlyAdvances(w, cie) && Outcome(w, cie).Success?
    ensures
      var rules := Outcome(w, cie).value.row.rules;
      Transparent(w, cie) <==>
        && Outcome(w, cie).value.states == []
        && forall n :: 0 < n <= |cie.program| && Advances(cie, n) ==> SettledAfter(w, cie, n, rules)
  {
    var rules := Outcome(w, cie).value.row.rules;
    CieCacheTransparentForAllFdesExactly(w, cie);
    forall n | 0 <= n <= |cie.program|
      ensures CanStopAfter(w, cie, n) <==> n == |cie.program| || (0 < n && Advances(cie, n))
    {
      StopsAtAdvances(w, cie, n);
    }
    assert CanStopAfter(w, cie, |cie.program|);
  }

  /** A rule set after an advance makes the cached rules depend on which pc came first. */
  lemma MovingCieIsNotTransparent()
    ensures !Transparent(W64, Cie(1, 1, 0, [AdvanceLoc(4), UndefinedReg(1)]))
  {
    var cie := Cie(1, 1, 0, [AdvanceLoc(4), UndefinedReg(1)]);
    var m := Machine(0, Row(map[], 0), []);
    var c := CieContext(W64, cie);
    AfterStep(c, cie.program, m, 0, m, Machine(4, Row(map[], 0), []));
    AfterStep(c, cie.program, m, 1, Machine(4, Row(map[], 0), []), Machine(4, Row(map[1 := Undefined], 4), []));
    assert 1 in Outcome(W64, cie).value.row.rules && 1 !in OutcomeAt(W64, cie, 1).value.row.rules;
    assert Distance(cie, 1) == 4 && Distance(cie, 2) == 4;
    AdvancingCieTransparentExactly(W64, cie);
    assert Advances(cie, 1);
  }

  /** A CIE that advances after its last rule is transparent. */
  lemma LateMoveIsTransparent()
    ensures Transparent(W64, Cie(1, 1, 0, [UndefinedReg(1), AdvanceLoc(4)]))
  {
    var cie := Cie(1, 1, 0, [UndefinedReg(1), AdvanceLoc(4)]);
    LateMoveOutcome(cie);
    assert Distance(cie, 1) == 0 && Distance(cie, 2) == 4;
    AdvancingCieTransparentExactly(W64, cie);
  }

  lemma LateMoveOutcome(cie: Cie)
    requires cie == Cie(1, 1, 0, [UndefinedReg(1), AdvanceLoc(4)])
    ensures SettledAfter(W64, cie, 2, map[1 := Undefined])
  {
    var m := Machine(0, Row(map[], 0), []);
    var m1 := Machine(0, Row(map[1 := Undefined], 0), []);
    AfterStep(CieContext(W64, cie), cie.program, m, 0, m, m1);
    AfterStep(CieContext(W64, cie), cie.program, m, 1, m1, Machine(4, Row(map[1 := Undefined], 0), []));
  }
}
