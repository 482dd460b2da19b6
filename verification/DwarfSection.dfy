/**
 `DwarfSection::Step`: rows are cached by their end pc, on top of the CIE cache and the
 incremental FDE index. Over every history of calls the registers come out as if nothing had
 been cached.
 */
module DwarfSection {
  import opened Basics
  import opened DwarfMemory
  import opened DwarfCfa
  import opened CieCache
  import opened FdeIndex
  import opened DwarfEval

  datatype CachedRow = CachedRow(row: LocRegs, cie: Cie)

  // ---------------------------------------------------------------------------
  // What a step would use with every cache empty

  /** The rules in force at `pc`, and the CIE they belong to, computed from the whole section. */
  function FreshRules(w: Width, entries: seq<Entry>, pc: nat): Option<(Rules, Cie)> {
    var i := Scan(entries, 0, pc);
    if i == |entries| then None
    else
      match Cold(w, entries[i].fde, pc)
      case Success(row) => Some((row.rules, entries[i].fde.cie))
      case Failure(_) => None
  }

  // ---------------------------------------------------------------------------
  // Well-behaved FDEs

  /** Wherever the CIE program can stop it has set all its rules and restored every state it
      remembers, or it fails. */
  ghost predicate SoundCie(w: Width, cie: Cie) {
    Settled(w, cie) || AlwaysFails(w, cie)
  }

  predicate InRange(c: Context, n: nat)
    requires n <= |c.fde.program|
  {
    c.fde.pcStart <= LocAt(c, c.fde.program, c.width.Truncate(c.fde.pcStart), n) <= c.fde.pcEnd
  }

  /** Locations never decrease and stay in the FDE's range. */
  predicate Orderly(c: Context) {
    && Ascending(c, c.fde.program, c.width.Truncate(c.fde.pcStart))
    && forall n :: 0 <= n <= |c.fde.program| ==> InRange(c, n)
  }

  /** And a restore_state at the end does not bring a row to claim a pc that has other rules. */
  predicate SoundProgram(c: Context) {
    Orderly(c) && EndsSoundly(c, c.fde.program, Enter(c, map[], []))
  }

  function FdeContext(w: Width, fde: Fde, cieRules: Rules): Context {
    Context(w, fde, Some(cieRules))
  }

  ghost predicate SoundFde(w: Width, fde: Fde) {
    && SoundCie(w, fde.cie)
    && (Outcome(w, fde.cie).Success? ==> SoundProgram(FdeContext(w, fde, Outcome(w, fde.cie).value.row.rules)))
  }

  /** FDEs are disjoint and well behaved, and an offset names one CIE. */
  ghost predicate SoundSection(w: Width, entries: seq<Entry>) {
    && Separate(entries)
    && (forall i :: 0 <= i < |entries| && entries[i].FdeEntry? ==> SoundFde(w, entries[i].fde))
    && (forall i, j :: 0 <= i < |entries| && 0 <= j < |entries| && SameCieOffset(entries[i], entries[j])
                       ==> entries[i].fde.cie == entries[j].fde.cie)
  }

  predicate SameCieOffset(a: Entry, b: Entry) {
    a.FdeEntry? && b.FdeEntry? && a.fde.cieOffset == b.fde.cieOffset
  }

  // ---------------------------------------------------------------------------
  // A row computed for one pc is right for its whole range

  lemma RowWithinFde(c: Context, pc: nat)
    requires c.cieRules.Some? && Orderly(c) && c.width.Truncate(c.fde.pcStart) <= pc < c.fde.pcEnd
    requires Run(c, c.fde.program, 0, Enter(c, map[], []), pc).Success?
    ensures
      var r := Run(c, c.fde.program, 0, Enter(c, map[], []), pc).value;
      c.fde.pcStart <= r.0.row.pcStart <= pc < r.1 <= c.fde.pcEnd
  {
    var m := Enter(c, map[], []);
    var program := c.fde.program;
    var k := Stop(c, program, m.curPc, 0, pc);
    RunIsAfterStop(c, program, m, 0, pc);
    AfterLocation(c, program, m, k);
    StartIsOrigin(c, program, m, k);
    RowContainsPc(c, program, m, pc);
    assert InRange(c, Origin(program, k)) && InRange(c, k);
  }

  lemma WarmRowIsValid(w: Width, fde: Fde, cieRules: Rules, pc: nat)
    requires SoundProgram(FdeContext(w, fde, cieRules)) && InFde(fde, pc)
    requires Warm(w, fde, cieRules, pc).Success?
    ensures
      var row := Warm(w, fde, cieRules, pc).value;
      && fde.pcStart <= row.pcStart <= pc < row.pcEnd <= fde.pcEnd
      && forall pc': nat :: row.pcStart <= pc' < row.pcEnd ==>
           Warm(w, fde, cieRules, pc').Success? && Warm(w, fde, cieRules, pc').value.rules == row.rules
  {
    var c := FdeContext(w, fde, cieRules);
    var m := Enter(c, map[], []);
    assert InRange(c, 0);
    RowWithinFde(c, pc);
    AllRowsValidExactly(c, fde.program, m);
    assert ValidFor(c, fde.program, m, pc);
    var row := Warm(w, fde, cieRules, pc).value;
    forall pc': nat | row.pcStart <= pc' < row.pcEnd
      ensures Warm(w, fde, cieRules, pc').Success? && Warm(w, fde, cieRules, pc').value.rules == row.rules
    {
      assert RulesAt(c, fde.program, m, pc') == Success(row.rules);
    }
  }

  /** From the FDE's start on, computing from scratch is using the CIE's own rules. */
  lemma {:induction false} ColdIsWarm(w: Width, fde: Fde, pc: nat)
    requires SoundCie(w, fde.cie) && InFde(fde, pc)
    ensures
      match Outcome(w, fde.cie)
      case Success(m) =>
        && RunCie(w, fde, pc).Success? && RunCie(w, fde, pc).value.row.rules == m.row.rules
        && Cold(w, fde, pc) == Warm(w, fde, m.row.rules, pc)
      case Failure(_) => RunCie(w, fde, pc).Failure? && Cold(w, fde, pc).Failure?
  {
    assert w.Truncate(fde.pcStart) <= fde.pcStart;
    CieRunIsOutcome(w, fde, pc);
    if Outcome(w, fde.cie).Success? {
      CieCacheTransparentExactly(w, fde, pc);
    }
  }

  // ---------------------------------------------------------------------------
  // A row serves other pcs exactly when the program ends soundly

  /** The row computed for `pc` has the rules of `pc'`, if it claims it. */
  predicate Serves(w: Width, fde: Fde, pc: nat, pc': nat) {
    var r := Cold(w, fde, pc);
    r.Success? && r.value.pcStart <= pc' < r.value.pcEnd ==>
      Cold(w, fde, pc').Success? && Cold(w, fde, pc').value.rules == r.value.rules
  }

  ghost predicate RowsServe(w: Width, fde: Fde) {
    forall pc: nat, pc': nat {:trigger Serves(w, fde, pc, pc')} :: InFde(fde, pc) ==> Serves(w, fde, pc, pc')
  }

  lemma ServesIfValid(w: Width, fde: Fde, cieRules: Rules, pc: nat)
    requires Settled(w, fde.cie) && cieRules == Outcome(w, fde.cie).value.row.rules && InFde(fde, pc)
    requires Orderly(FdeContext(w, fde, cieRules))
    ensures
      var c := FdeContext(w, fde, cieRules);
      ValidFor(c, fde.program, Enter(c, map[], []), pc) <==> forall pc': nat :: Serves(w, fde, pc, pc')
  {
    var c := FdeContext(w, fde, cieRules);
    var m := Enter(c, map[], []);
    assert InRange(c, 0);
    ColdIsWarm(w, fde, pc);
    if Warm(w, fde, cieRules, pc).Success? {
      RowWithinFde(c, pc);
      var row := Warm(w, fde, cieRules, pc).value;
      forall pc': nat | row.pcStart <= pc' < row.pcEnd
        ensures Serves(w, fde, pc, pc') <==> RulesAt(c, fde.program, m, pc') == Success(row.rules)
      {
        ColdIsWarm(w, fde, pc');
      }
      if forall pc': nat :: Serves(w, fde, pc, pc') {
        forall pc': nat | row.pcStart <= pc' < row.pcEnd
          ensures RulesAt(c, fde.program, m, pc') == Success(row.rules)
        {
          assert Serves(w, fde, pc, pc');
        }
      }
    }
  }

  /** Before its start the FDE has an empty row. */
  lemma ValidBeforeStart(c: Context, m: Machine, pc: nat)
    requires m.row.pcStart == m.curPc && pc < m.curPc
    ensures ValidFor(c, c.fde.program, m, pc)
  {
  }

  /** For an orderly FDE of a sound CIE, every row has the rules of all pcs it claims, exactly when the
      program ends soundly. */
  lemma RowsServeExactly(w: Width, fde: Fde)
    requires SoundCie(w, fde.cie)
    requires Outcome(w, fde.cie).Success? ==> Orderly(FdeContext(w, fde, Outcome(w, fde.cie).value.row.rules))
    ensures RowsServe(w, fde) <==> SoundFde(w, fde)
  {
    assert CanStopAfter(w, fde.cie, |fde.cie.program|);
    if Outcome(w, fde.cie).Failure? {
      forall pc: nat, pc': nat | InFde(fde, pc)
        ensures Serves(w, fde, pc, pc')
      {
        ColdIsWarm(w, fde, pc);
      }
    } else {
      var cieRules := Outcome(w, fde.cie).value.row.rules;
      var c := FdeContext(w, fde, cieRules);
      var m := Enter(c, map[], []);
      assert InRange(c, 0);
      forall pc: nat | pc < fde.pcEnd
        ensures ValidFor(c, fde.program, m, pc) <==> (InFde(fde, pc) ==> forall pc': nat :: Serves(w, fde, pc, pc'))
      {
        if InFde(fde, pc) {
          ServesIfValid(w, fde, cieRules, pc);
        } else {
          ValidBeforeStart(c, m, pc);
        }
      }
      AllRowsValidExactly(c, fde.program, m);
    }
  }

  /** In a section with an orderly FDE that does not end soundly there are two pcs of it: the row
      computed for the one claims the other and has not the rules a computation from nothing gives. */
  lemma UnsoundRowExists(w: Width, entries: seq<Entry>, i: nat) returns (pc: nat, pc': nat)
    requires Separate(entries) && i < |entries| && entries[i].FdeEntry? && SoundCie(w, entries[i].fde.cie)
    requires Outcome(w, entries[i].fde.cie).Success?
    requires Orderly(FdeContext(w, entries[i].fde, Outcome(w, entries[i].fde.cie).value.row.rules))
    requires !SoundFde(w, entries[i].fde)
    ensures Scan(entries, 0, pc) == i && Cold(w, entries[i].fde, pc).Success?
    ensures
      var row := Cold(w, entries[i].fde, pc).value;
      row.pcStart <= pc' < row.pcEnd && FreshRules(w, entries, pc') != Some((row.rules, entries[i].fde.cie))
  {
    var fde := entries[i].fde;
    RowsServeExactly(w, fde);
    pc, pc' :| InFde(fde, pc) && !Serves(w, fde, pc, pc');
    ColdIsWarm(w, fde, pc);
    RowWithinFde(FdeContext(w, fde, Outcome(w, fde.cie).value.row.rules), pc);
    assert Contains(entries, i, pc) && Contains(entries, i, pc');
    FreshInFde(w, entries, i, pc);
    FreshInFde(w, entries, i, pc');
  }

  /** A cached row is right: every pc it claims has these rules when computed from scratch. */
  ghost predicate RowIsFresh(w: Width, entries: seq<Entry>, cached: CachedRow) {
    && cached.row.pcStart < cached.row.pcEnd
    && forall pc: nat :: cached.row.pcStart <= pc < cached.row.pcEnd ==>
         FreshRules(w, entries, pc) == Some((cached.row.rules, cached.cie))
  }

  lemma FreshInFde(w: Width, entries: seq<Entry>, i: nat, pc: nat)
    requires Separate(entries) && Contains(entries, i, pc)
    ensures Scan(entries, 0, pc) == i
  {
  }

  lemma ComputedRowIsFresh(w: Width, entries: seq<Entry>, i: nat, pc: nat)
    requires SoundSection(w, entries) && Contains(entries, i, pc)
    requires Cold(w, entries[i].fde, pc).Success?
    ensures
      var row := Cold(w, entries[i].fde, pc).value;
      RowIsFresh(w, entries, CachedRow(row, entries[i].fde.cie)) && row.pcStart <= pc < row.pcEnd
  {
    var fde := entries[i].fde;
    var row := Cold(w, fde, pc).value;
    ColdIsWarm(w, fde, pc);
    var cieRules := Outcome(w, fde.cie).value.row.rules;
    WarmRowIsValid(w, fde, cieRules, pc);
    forall pc': nat | row.pcStart <= pc' < row.pcEnd
      ensures FreshRules(w, entries, pc') == Some((row.rules, fde.cie))
    {
      assert Contains(entries, i, pc');
      FreshInFde(w, entries, i, pc');
      ColdIsWarm(w, fde, pc');
    }
  }

  /** `now` are the caller's registers that these rules give for the callee's registers `was`. */
  ghost predicate Recovers(f: Frame, rules: Rules, was: seq<nat>, now: seq<nat>, finished: bool) {
    && f.returnReg < |was| == |now| && CfaValue(f, was, rules).Known?
    && var cfa := CfaValue(f, was, rules).value;
    var value := rule => RuleValue(f, was, cfa, rule);
    && (forall reg :: 0 <= reg < |was| ==> now[reg] == FinalValue(f, value, was, cfa, rules, reg))
    && finished == (NewPc(value, was, rules, f.returnReg) == 0)
  }

  // ---------------------------------------------------------------------------
  // The section

  /** Some iteration order of a hash map's keys. */
  method AnyOrder(keys: set<nat>) returns (order: seq<nat>)
    ensures forall k :: k in keys <==> k in order
    ensures forall i, j :: 0 <= i < j < |order| ==> order[i] != order[j]
  {
    order := [];
    var left := keys;
    while left != {}
      invariant left <= keys
      invariant forall k :: k in keys <==> k in order || k in left
      invariant forall k :: k in left ==> k !in order
      invariant forall i, j :: 0 <= i < j < |order| ==> order[i] != order[j]
    {
      var k :| k in left;
      order := order + [k];
      left := left - {k};
    }
  }

  /** What is cached for the FDE's CIE, if anything, is what the CIE program sets up. */
  ghost predicate CachedRulesOk(w: Width, cache: map<nat, Rules>, fde: Fde) {
    fde.cieOffset in cache ==>
      Outcome(w, fde.cie).Success? && Outcome(w, fde.cie).value.row.rules == cache[fde.cieOffset]
  }

  lemma CachedIsCold(w: Width, cache: map<nat, Rules>, fde: Fde, pc: nat)
    requires SoundCie(w, fde.cie) && InFde(fde, pc) && CachedRulesOk(w, cache, fde)
    ensures fde.cieOffset in cache ==> Warm(w, fde, cache[fde.cieOffset], pc) == Cold(w, fde, pc)
    ensures RunCie(w, fde, pc).Success? ==>
      CachedRulesOk(w, cache[fde.cieOffset := RunCie(w, fde, pc).value.row.rules], fde)
  {
    ColdIsWarm(w, fde, pc);
  }

  /** Two rows that end at the same pc have the same rules. */
  lemma SameEndSameRules(w: Width, entries: seq<Entry>, a: CachedRow, b: CachedRow)
    requires RowIsFresh(w, entries, a) && RowIsFresh(w, entries, b) && a.row.pcEnd == b.row.pcEnd
    ensures a.row.rules == b.row.rules && a.cie == b.cie
  {
    assert FreshRules(w, entries, a.row.pcEnd - 1) == Some((a.row.rules, a.cie));
  }

  /** `GetCfaLocationInfo` with this CIE cache. */
  function Located(w: Width, cache: map<nat, Rules>, fde: Fde, pc: nat): Result<LocRegs> {
    if fde.cieOffset in cache then Warm(w, fde, cache[fde.cieOffset], pc) else Cold(w, fde, pc)
  }

  /** The cached row that is used for `pc`, if there is one. */
  function Hit(rows: map<nat, CachedRow>, pc: nat): Option<CachedRow> {
    match UpperBound(rows.Keys, pc)
    case None => None
    case Some(k) => if rows[k].row.pcStart <= pc then Some(rows[k]) else None
  }

  /** `emplace`: a row that is there already stays. */
  function Emplace(rows: map<nat, CachedRow>, added: CachedRow): map<nat, CachedRow> {
    if added.row.pcEnd in rows then rows else rows[added.row.pcEnd := added]
  }

  class Section {
    const width: Width
    const memory: Memory
    const reader: Reader
    var cieLocRegs: map<nat, Rules>
    var locRegs: map<nat, CachedRow>

    constructor (width: Width, memory: Memory, entries: seq<Entry>)
      ensures Valid() && reader.entries == entries && this.width == width && this.memory == memory && fresh(reader)
      ensures cieLocRegs == map[] && locRegs == map[] && reader.next == 0 && reader.index == map[]
    {
      this.width := width;
      this.memory := memory;
      reader := new Reader(entries);
      cieLocRegs := map[];
      locRegs := map[];
    }

    ghost predicate CieCacheOk()
      reads this, reader
    {
      forall i :: 0 <= i < |reader.entries| && reader.entries[i].FdeEntry? ==>
        CachedRulesOk(width, cieLocRegs, reader.entries[i].fde)
    }

    ghost predicate RowCacheOk()
      reads this, reader
    {
      forall k :: k in locRegs ==> locRegs[k].row.pcEnd == k && RowIsFresh(width, reader.entries, locRegs[k])
    }

    ghost predicate Sound()
      reads this
    {
      SoundSection(width, reader.entries)
    }

    /** What every history of calls keeps. */
    ghost predicate Valid()
      reads this, reader
    {
      reader.Valid() && (Sound() ==> CieCacheOk() && RowCacheOk())
    }

    /** `GetCfaLocationInfo`. */
    method GetCfaLocationInfo(pc: nat, fde: Fde) returns (r: Result<LocRegs>)
      modifies this`cieLocRegs
      ensures r == Located(width, old(cieLocRegs), fde, pc)
      ensures cieLocRegs ==
        if fde.cieOffset in old(cieLocRegs) || RunCie(width, fde, pc).Failure? then old(cieLocRegs)
        else old(cieLocRegs)[fde.cieOffset := RunCie(width, fde, pc).value.row.rules]
    {
      var cfa := new Interpreter(width, fde);
      var rules: Rules := map[];
      if fde.cieOffset !in cieLocRegs {
        var cie := cfa.GetLocationInfo(pc, fde.cie.program, rules);
        if cie.Failure? {
          return Failure(cie.error);
        }
        rules := cie.value.rules;
        cieLocRegs := cieLocRegs[fde.cieOffset := rules];
      }
      cfa.cieRules := Some(cieLocRegs[fde.cieOffset]);
      r := cfa.GetLocationInfo(pc, fde.program, rules);
    }

    /** A miss: compute the row for `pc` in `fde` and put it in the cache, unless a row with
        the same end is already there. */
    method ComputeRow(pc: nat, fde: Fde, ghost i: nat) returns (row: Option<CachedRow>)
      requires Valid() && Contains(reader.entries, i, pc) && reader.entries[i].fde == fde
      modifies this
      ensures Valid()
      ensures
        match Located(width, old(cieLocRegs), fde, pc)
        case Failure(_) => row == None && locRegs == old(locRegs)
        case Success(r) =>
          locRegs == Emplace(old(locRegs), CachedRow(r, fde.cie)) && row == Some(locRegs[r.pcEnd])
      ensures Sound() ==> (row.Some? <==> FreshRules(width, reader.entries, pc).Some?)
      ensures Sound() && row.Some? ==>
        FreshRules(width, reader.entries, pc) == Some((row.value.row.rules, row.value.cie))
    {
      var r := GetCfaLocationInfo(pc, fde);
      if Sound() {
        CachedIsCold(width, old(cieLocRegs), fde, pc);
        FreshInFde(width, reader.entries, i, pc);
        forall j | 0 <= j < |reader.entries| && reader.entries[j].FdeEntry?
          ensures CachedRulesOk(width, cieLocRegs, reader.entries[j].fde)
        {
          assert CachedRulesOk(width, old(cieLocRegs), reader.entries[j].fde);
          assert SameCieOffset(reader.entries[i], reader.entries[j])
                 ==> reader.entries[i].fde.cie == reader.entries[j].fde.cie;
        }
      }
      if r.Failure? {
        return None;
      }
      var computed := CachedRow(r.value, fde.cie);
      var key := r.value.pcEnd;
      if Sound() {
        ComputedRowIsFresh(width, reader.entries, i, pc);
        if key in locRegs {
          SameEndSameRules(width, reader.entries, locRegs[key], computed);
        }
      }
      if key !in locRegs {
        locRegs := locRegs[key := computed];
      }
      row := Some(locRegs[key]);
    }

    /** The lookup half of `Step`: the row used for `pc`, cached or computed. */
    method FindRow(pc: nat) returns (row: Option<CachedRow>)
      requires Valid()
      modifies this, reader
      ensures Valid()
      ensures Hit(old(locRegs), pc).Some? ==> row == Hit(old(locRegs), pc) && locRegs == old(locRegs)
      ensures Hit(old(locRegs), pc).None? ==>
        match Found(reader.entries, old(reader.next), pc)
        case None => row == None && locRegs == old(locRegs)
        case Some(fde) =>
          match Located(width, old(cieLocRegs), fde, pc)
          case Failure(_) => row == None && locRegs == old(locRegs)
          case Success(r) =>
            locRegs == Emplace(old(locRegs), CachedRow(r, fde.cie)) && row == Some(locRegs[r.pcEnd])
      ensures Sound() && row.Some? ==>
        FreshRules(width, reader.entries, pc) == Some((row.value.row.rules, row.value.cie))
      ensures Sound() && NoAdjacentDescent(reader.entries) ==>
        (row.Some? <==> FreshRules(width, reader.entries, pc).Some?)
    {
      var it := UpperBound(locRegs.Keys, pc);
      if it.Some? && locRegs[it.value].row.pcStart <= pc {
        return Some(locRegs[it.value]);
      }
      var fde := reader.GetFdeFromPc(pc);
      if fde.None? {
        if Sound() {
          AgreesWithScanExactly(reader.entries);
        }
        return None;
      }
      FoundContains(reader.entries, old(reader.next), pc);
      ghost var i: nat :| Contains(reader.entries, i, pc) && Some(reader.entries[i].fde) == fde;
      row := ComputeRow(pc, fde.value, i);
    }

    /** `Step`: the caller's registers, whatever was asked before. */
    method Step(pc: nat, process: Memory, pcReg: nat, spReg: nat, regs: array<nat>)
      returns (r: Evaluated<()>, finished: bool)
      requires Valid()
      requires regs.Length <= MAX_REGISTERS && pcReg < regs.Length && spReg < regs.Length
      modifies this, reader, regs
      ensures Valid()
      ensures Sound() && !r.Failing? ==> FreshRules(width, reader.entries, pc).Some?
      ensures Sound() && (r.Known? || NoAdjacentDescent(reader.entries)) && FreshRules(width, reader.entries, pc).Some?
          ==>
        var (rules, cie) := FreshRules(width, reader.entries, pc).value;
        var f := Frame(width, memory, process, cie.returnReg, pcReg, spReg);
        r.Known? == Succeeds(f, old(regs[..]), rules)
      ensures Sound() && r.Known? ==>
        var (rules, cie) := FreshRules(width, reader.entries, pc).value;
        Recovers(Frame(width, memory, process, cie.returnReg, pcReg, spReg), rules, old(regs[..]), regs[..], finished)
    {
      var row := FindRow(pc);
      if row.None? {
        return Failing, false;
      }
      var rules := row.value.row.rules;
      var order := AnyOrder(rules.Keys);
      var f := Frame(width, memory, process, row.value.cie.returnReg, pcReg, spReg);
      var dexPc;
      r, finished, dexPc := Eval(f, rules, order, regs);
    }
  }

  /** Two calls on a new section: the row of the first is used for the second, right or wrong. */
  method AskTwice(width: Width, memory: Memory, entries: seq<Entry>, pc: nat, pc': nat)
    returns (row: Option<CachedRow>)
    requires Scan(entries, 0, pc) < |entries| && Cold(width, entries[Scan(entries, 0, pc)].fde, pc).Success?
    requires
      var r := Cold(width, entries[Scan(entries, 0, pc)].fde, pc).value;
      r.pcStart <= pc' < r.pcEnd
    ensures
      var fde := entries[Scan(entries, 0, pc)].fde;
      row == Some(CachedRow(Cold(width, fde, pc).value, fde.cie))
  {
    var section := new Section(width, memory, entries);
    var first := section.FindRow(pc);
    row := section.FindRow(pc');
  }
}
