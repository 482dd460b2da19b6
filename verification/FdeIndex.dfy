/**
 The incremental search map of DwarfSection.cpp: FDEs are read from the section one at a time,
 and each is cut into the ranges of its pcs that no earlier FDE owns (`InsertFde`).
 */
module FdeIndex {
  import opened Basics
  import opened DwarfCfa

  /** A range of pcs, kept in the index under its end. */
  datatype Range = Range(start: nat, fde: Fde)

  type Index = map<nat, Range>

  /** The section as a sequence of well-formed entries. */
  datatype Entry = CieEntry | FdeEntry(fde: Fde)

  predicate InFde(fde: Fde, pc: nat) {
    fde.pcStart <= pc < fde.pcEnd
  }

  // ---------------------------------------------------------------------------
  // std::map::upper_bound

  predicate IsUpperBound(keys: set<nat>, x: nat, k: nat) {
    k in keys && x < k && forall j :: j in keys && x < j ==> k <= j
  }

  lemma {:induction false} UpperBoundExists(keys: set<nat>, x: nat, above: nat)
    requires above in keys && x < above
    ensures exists k :: IsUpperBound(keys, x, k)
    decreases above
  {
    if j :| j in keys && x < j < above {
      UpperBoundExists(keys, x, j);
    } else {
      assert IsUpperBound(keys, x, above);
    }
  }

  /** The least key above `x`. */
  function UpperBound(keys: set<nat>, x: nat): (k: Option<nat>)
    ensures k.Some? ==> IsUpperBound(keys, x, k.value)
    ensures k.None? ==> forall j :: j in keys ==> j <= x
  {
    if above :| above in keys && x < above then
      UpperBoundExists(keys, x, above);
      var k :| k in keys && IsUpperBound(keys, x, k);
      Some(k)
    else None
  }

  // ---------------------------------------------------------------------------
  // The index as a function from pcs to FDEs

  /** Ranges are non-empty and pairwise disjoint. */
  ghost predicate Disjoint(index: Index) {
    && (forall k :: k in index ==> index[k].start < k)
    && (forall j, k :: j in index && k in index && j < k ==> j <= index[k].start)
  }

  /** The cached search at the head of `GetFdeFromPc`. */
  function Lookup(index: Index, pc: nat): Option<Fde> {
    match UpperBound(index.Keys, pc)
    case None => None
    case Some(k) => if index[k].start <= pc then Some(index[k].fde) else None
  }

  ghost predicate Owns(index: Index, k: nat, pc: nat) {
    k in index && index[k].start <= pc < k
  }

  lemma LookupIsOwner(index: Index, k: nat, pc: nat)
    requires Disjoint(index) && Owns(index, k, pc)
    ensures Lookup(index, pc) == Some(index[k].fde)
  {
    var u := UpperBound(index.Keys, pc).value;
    assert u <= k;
  }

  lemma LookupHasOwner(index: Index, pc: nat) returns (k: nat)
    requires Lookup(index, pc).Some?
    ensures Owns(index, k, pc) && Lookup(index, pc) == Some(index[k].fde)
  {
    k := UpperBound(index.Keys, pc).value;
  }

  /** Where the new FDE's pcs begin to count: its own start, unless the first range that ends
      after it starts inside the FDE or right at its end. */
  function FirstIndexed(index: Index, fde: Fde): nat {
    match UpperBound(index.Keys, fde.pcStart)
    case None => fde.pcStart
    case Some(k) => if fde.pcStart < index[k].start <= fde.pcEnd then index[k].start else fde.pcStart
  }

  /** The effect `InsertFde` has on lookups. */
  function LookupAfter(index: Index, fde: Fde, pc: nat): Option<Fde> {
    if Lookup(index, pc).Some? then Lookup(index, pc)
    else if InFde(fde, pc) && FirstIndexed(index, fde) <= pc then Some(fde)
    else None
  }

  /** Adding a range where there was none changes lookups in that range only. */
  lemma AddRange(index: Index, start: nat, end: nat, fde: Fde)
    requires Disjoint(index) && start < end
    requires forall k :: k in index ==> k <= start || end <= index[k].start
    ensures Disjoint(index[end := Range(start, fde)])
    ensures forall pc: nat :: Lookup(index[end := Range(start, fde)], pc) ==
                         if start <= pc < end then Some(fde) else Lookup(index, pc)
  {
    var added := index[end := Range(start, fde)];
    forall pc: nat
      ensures Lookup(added, pc) == if start <= pc < end then Some(fde) else Lookup(index, pc)
    {
      if start <= pc < end {
        LookupIsOwner(added, end, pc);
      } else if Lookup(index, pc).Some? {
        var k := LookupHasOwner(index, pc);
        LookupIsOwner(added, k, pc);
      } else if Lookup(added, pc).Some? {
        var k := LookupHasOwner(added, pc);
        LookupIsOwner(index, k, pc);
      }
    }
  }

  /** Between `start` and the next range nothing is found; inside the next range everything is. */
  lemma NextRange(index: Index, start: nat, k: nat)
    requires Disjoint(index) && IsUpperBound(index.Keys, start, k)
    ensures forall pc: nat :: start <= pc < index[k].start ==> Lookup(index, pc) == None
    ensures forall pc: nat :: start <= pc && index[k].start <= pc < k ==> Lookup(index, pc) == Some(index[k].fde)
  {
    forall pc: nat | start <= pc && index[k].start <= pc < k
      ensures Lookup(index, pc) == Some(index[k].fde)
    {
      LookupIsOwner(index, k, pc);
    }
  }

  /** `InsertFde` has dealt with the pcs below `start` and not touched the others. */
  ghost predicate DoneBelow(was: Index, index: Index, fde: Fde, start: nat) {
    && Disjoint(was) && Disjoint(index)
    && (forall k :: k in was ==> k in index && index[k] == was[k])
    && (forall k :: k in index && k !in was ==> k <= start)
    && (forall pc: nat :: Lookup(index, pc) == if pc < start then LookupAfter(was, fde, pc) else Lookup(was, pc))
  }

  lemma SameBoundAbove(was: Index, index: Index, start: nat)
    requires forall k :: k in was ==> k in index
    requires forall k :: k in index && k !in was ==> k <= start
    ensures UpperBound(index.Keys, start) == UpperBound(was.Keys, start)
  {
  }

  /** Passing over the next range, first filling the gap before it. */
  lemma PassRange(was: Index, index: Index, fde: Fde, start: nat, k: nat)
    requires DoneBelow(was, index, fde, start) && IsUpperBound(was.Keys, start, k)
    requires FirstIndexed(was, fde) <= start < was[k].start <= fde.pcEnd && fde.pcStart <= start
    ensures DoneBelow(was, index[was[k].start := Range(start, fde)], fde, k)
  {
    NextRange(was, start, k);
    AddRange(index, start, was[k].start, fde);
    var added := index[was[k].start := Range(start, fde)];
    forall pc: nat
      ensures Lookup(added, pc) == if pc < k then LookupAfter(was, fde, pc) else Lookup(was, pc)
    {
      if start <= pc < was[k].start {
        assert Lookup(was, pc) == None;
      } else if start <= pc < k {
        assert Lookup(was, pc).Some?;
      }
    }
  }

  /** Passing over the next range when nothing is to be filled before it. */
  lemma PassAdjacentRange(was: Index, index: Index, fde: Fde, start: nat, k: nat)
    requires DoneBelow(was, index, fde, start) && IsUpperBound(was.Keys, start, k)
    requires start < was[k].start ==> was[k].start <= FirstIndexed(was, fde)
    ensures DoneBelow(was, index, fde, k)
  {
    NextRange(was, start, k);
  }

  /** The rest of the FDE lies before the next range. */
  lemma AddRest(was: Index, index: Index, fde: Fde, start: nat)
    requires DoneBelow(was, index, fde, start)
    requires FirstIndexed(was, fde) <= start < fde.pcEnd && fde.pcStart <= start
    requires var k := UpperBound(was.Keys, start); k.Some? ==> fde.pcEnd < was[k.value].start
    ensures
      var added := index[fde.pcEnd := Range(start, fde)];
      && Disjoint(added)
      && forall pc: nat :: Lookup(added, pc) == LookupAfter(was, fde, pc)
  {
    var k := UpperBound(was.Keys, start);
    if k.Some? {
      NextRange(was, start, k.value);
    }
    AddRange(index, start, fde.pcEnd, fde);
  }

  // ---------------------------------------------------------------------------
  // Which FDE owns a pc once a prefix of the section has been read

  /** The FDE's pcs from its start through `pc` are all unowned, but a later one, or the pc
      right after the FDE, is owned. */
  ghost predicate InLeadingGap(entries: seq<Entry>, n: nat, fde: Fde, pc: nat)
    requires n <= |entries|
    decreases n, 1
  {
    && (forall q: nat :: fde.pcStart <= q <= pc ==> Owner(entries, n, q).None?)
    && (exists q: nat :: pc < q <= fde.pcEnd && Owner(entries, n, q).Some?)
  }

  /** The first FDE to own `pc` among the first `n` entries. */
  ghost function Owner(entries: seq<Entry>, n: nat, pc: nat): Option<Fde>
    requires n <= |entries|
    decreases n, 0
  {
    if n == 0 then None
    else if Owner(entries, n - 1, pc).Some? || entries[n - 1].CieEntry? then Owner(entries, n - 1, pc)
    else if InFde(entries[n - 1].fde, pc) && !InLeadingGap(entries, n - 1, entries[n - 1].fde, pc)
    then Some(entries[n - 1].fde)
    else None
  }

  ghost predicate Indexes(index: Index, entries: seq<Entry>, n: nat)
    requires n <= |entries|
  {
    Disjoint(index) && forall pc: nat :: Lookup(index, pc) == Owner(entries, n, pc)
  }

  lemma GapBeforeFirstIndexed(index: Index, entries: seq<Entry>, n: nat, fde: Fde, pc: nat)
    requires n <= |entries| && Indexes(index, entries, n) && InFde(fde, pc)
    ensures InLeadingGap(entries, n, fde, pc) <==> pc < FirstIndexed(index, fde)
  {
    var k := UpperBound(index.Keys, fde.pcStart);
    if k.Some? {
      NextRange(index, fde.pcStart, k.value);
      var start := index[k.value].start;
      if start <= fde.pcStart {
        assert Lookup(index, fde.pcStart).Some?;
      } else if start <= fde.pcEnd {
        assert Lookup(index, start).Some?;
      }
    }
  }

  lemma InsertKeepsIndexes(was: Index, index: Index, entries: seq<Entry>, n: nat)
    requires n < |entries| && entries[n].FdeEntry? && Indexes(was, entries, n) && Disjoint(index)
    requires forall pc: nat :: Lookup(index, pc) == LookupAfter(was, entries[n].fde, pc)
    ensures Indexes(index, entries, n + 1)
  {
    forall pc: nat
      ensures Lookup(index, pc) == Owner(entries, n + 1, pc)
    {
      if InFde(entries[n].fde, pc) {
        GapBeforeFirstIndexed(was, entries, n, entries[n].fde, pc);
      }
    }
  }

  function FdesOf(entries: seq<Entry>, n: nat): seq<Fde>
    requires n <= |entries|
  {
    if n == 0 then []
    else FdesOf(entries, n - 1) + match entries[n - 1] case CieEntry => [] case FdeEntry(fde) => [fde]
  }

  // ---------------------------------------------------------------------------
  // Lookup against a linear scan

  predicate Contains(entries: seq<Entry>, i: nat, pc: nat) {
    i < |entries| && entries[i].FdeEntry? && InFde(entries[i].fde, pc)
  }

  /** The first FDE at or after entry `n` that contains `pc`. */
  function Scan(entries: seq<Entry>, n: nat, pc: nat): (i: nat)
    requires n <= |entries|
    ensures n <= i <= |entries|
    ensures i < |entries| ==> Contains(entries, i, pc)
    ensures forall j :: n <= j < i ==> !Contains(entries, j, pc)
    decreases |entries| - n
  {
    if n == |entries| || Contains(entries, n, pc) then n else Scan(entries, n + 1, pc)
  }

  /** What `GetFdeFromPc` answers after `n` entries have been read. */
  ghost function Found(entries: seq<Entry>, n: nat, pc: nat): Option<Fde>
    requires n <= |entries|
  {
    var i := Scan(entries, n, pc);
    if Owner(entries, n, pc).Some? then Owner(entries, n, pc)
    else if i < |entries| then Some(entries[i].fde)
    else None
  }

  lemma {:induction false} OwnerContains(entries: seq<Entry>, n: nat, pc: nat) returns (i: nat)
    requires n <= |entries| && Owner(entries, n, pc).Some?
    ensures i < n && Contains(entries, i, pc) && Owner(entries, n, pc) == Some(entries[i].fde)
  {
    if Owner(entries, n - 1, pc).Some? || entries[n - 1].CieEntry? {
      i := OwnerContains(entries, n - 1, pc);
    } else {
      i := n - 1;
    }
  }

  /** Whatever has been read before, an FDE that is returned belongs to the section and
      contains the pc. */
  lemma FoundContains(entries: seq<Entry>, n: nat, pc: nat)
    requires n <= |entries| && Found(entries, n, pc).Some?
    ensures exists i: nat :: Contains(entries, i, pc) && Found(entries, n, pc) == Some(entries[i].fde)
  {
    if Owner(entries, n, pc).Some? {
      var i := OwnerContains(entries, n, pc);
    } else {
      assert Contains(entries, Scan(entries, n, pc), pc);
    }
  }

  /** The first FDE of the section that contains `pc`. */
  function First(entries: seq<Entry>, pc: nat): Option<Fde> {
    var i := Scan(entries, 0, pc);
    if i < |entries| then Some(entries[i].fde) else None
  }

  /** Whatever has been read before, the first FDE that contains the pc is found. */
  ghost predicate FindsFirst(entries: seq<Entry>) {
    forall n: nat, pc: nat :: n <= |entries| ==> Found(entries, n, pc) == First(entries, pc)
  }

  /** FDE `j` is not empty and starts inside FDE `i`, but not with it, or right at its end. */
  predicate StartsWithin(entries: seq<Entry>, j: nat, i: nat)
    requires i < |entries| && entries[i].FdeEntry?
  {
    var fde := entries[i].fde;
    && j < |entries| && entries[j].FdeEntry? && Contains(entries, j, entries[j].fde.pcStart)
    && fde.pcStart < entries[j].fde.pcStart <= fde.pcEnd
  }

  /** FDE `i` starts outside all FDEs before it, and one of them starts within it. */
  ghost predicate Trips(entries: seq<Entry>, i: nat)
    requires i < |entries|
  {
    && entries[i].FdeEntry?
    && (forall j: nat :: j < i ==> !Contains(entries, j, entries[i].fde.pcStart))
    && exists j: nat :: j < i && StartsWithin(entries, j, i)
  }

  lemma OwnedAfterGap(entries: seq<Entry>, n: nat, fde: Fde, pc: nat) returns (q: nat)
    requires n <= |entries| && InLeadingGap(entries, n, fde, pc)
    ensures pc < q <= fde.pcEnd && Owner(entries, n, q).Some?
  {
    q :| pc < q <= fde.pcEnd && Owner(entries, n, q).Some?;
  }

  /** The owner among the first `n` entries is the first of them that contains the pc. */
  predicate OwnedByFirst(entries: seq<Entry>, n: nat, pc: nat, owner: Option<Fde>)
    requires n <= |entries|
  {
    var i := Scan(entries, 0, pc);
    owner == if i < n then Some(entries[i].fde) else None
  }

  /** A gap before the first indexed pc means that the entry trips. */
  lemma GapTrips(entries: seq<Entry>, i: nat, pc: nat)
    requires i < |entries| && Contains(entries, i, pc) && InLeadingGap(entries, i, entries[i].fde, pc)
    requires forall q: nat :: OwnedByFirst(entries, i, q, Owner(entries, i, q))
    ensures Trips(entries, i)
  {
    var fde := entries[i].fde;
    assert OwnedByFirst(entries, i, fde.pcStart, Owner(entries, i, fde.pcStart));
    var q := OwnedAfterGap(entries, i, fde, pc);
    var j := OwnerContains(entries, i, q);
    assert !Contains(entries, j, fde.pcStart);
    assert StartsWithin(entries, j, i);
  }

  /** As long as no entry trips, every pc is owned by the first FDE that contains it. */
  lemma {:induction false} OwnerIsFirst(entries: seq<Entry>, n: nat)
    requires n <= |entries| && forall i: nat :: i < n ==> !Trips(entries, i)
    ensures forall pc: nat :: OwnedByFirst(entries, n, pc, Owner(entries, n, pc))
  {
    if n > 0 {
      OwnerIsFirst(entries, n - 1);
      forall pc: nat
        ensures OwnedByFirst(entries, n, pc, Owner(entries, n, pc))
      {
        assert OwnedByFirst(entries, n - 1, pc, Owner(entries, n - 1, pc));
        if Contains(entries, n - 1, pc) && InLeadingGap(entries, n - 1, entries[n - 1].fde, pc) {
          GapTrips(entries, n - 1, pc);
        }
      }
    }
  }

  lemma {:induction false} StaysOwned(entries: seq<Entry>, n: nat, n': nat, pc: nat)
    requires n <= n' <= |entries| && Owner(entries, n, pc).Some?
    ensures Owner(entries, n', pc) == Owner(entries, n, pc)
    decreases n' - n
  {
    if n < n' {
      StaysOwned(entries, n, n' - 1, pc);
    }
  }

  /** The start of an FDE that has tripped never becomes its own again, not even when the section
      has the same FDE once more. */
  lemma {:induction false} NeverRegained(entries: seq<Entry>, i: nat, n: nat, fde: Fde, q: nat)
    requires i <= n <= |entries| && fde.pcStart < q <= fde.pcEnd && Owner(entries, i, q).Some?
    requires Owner(entries, i, fde.pcStart).None?
    ensures Owner(entries, n, fde.pcStart) != Some(fde)
    decreases n - i
  {
    if i < n {
      NeverRegained(entries, i, n - 1, fde, q);
      StaysOwned(entries, i, n - 1, q);
      if Owner(entries, n - 1, fde.pcStart).None? && entries[n - 1] == FdeEntry(fde) {
        assert InLeadingGap(entries, n - 1, fde, fde.pcStart);
      }
    }
  }

  lemma {:induction false} FirstTrip(entries: seq<Entry>, i: nat) returns (k: nat)
    requires i < |entries| && Trips(entries, i)
    ensures k < |entries| && Trips(entries, k) && forall j: nat :: j < k ==> !Trips(entries, j)
  {
    if j: nat :| j < i && Trips(entries, j) {
      k := FirstTrip(entries, j);
    } else {
      k := i;
    }
  }

  /** Once the whole section has been read, the start of the first FDE that trips is not found in it. */
  lemma TripLoses(entries: seq<Entry>, i: nat)
    requires i < |entries| && Trips(entries, i) && forall j: nat :: j < i ==> !Trips(entries, j)
    ensures var pc := entries[i].fde.pcStart;
      First(entries, pc) == Some(entries[i].fde) && Found(entries, |entries|, pc) != First(entries, pc)
  {
    var fde := entries[i].fde;
    var j: nat :| j < i && StartsWithin(entries, j, i);
    var q := entries[j].fde.pcStart;
    OwnerIsFirst(entries, i);
    assert OwnedByFirst(entries, i, q, Owner(entries, i, q)) && Contains(entries, j, q);
    assert Contains(entries, i, fde.pcStart) && Scan(entries, 0, fde.pcStart) == i;
    assert OwnedByFirst(entries, i, fde.pcStart, Owner(entries, i, fde.pcStart));
    NeverRegained(entries, i, |entries|, fde, q);
  }

  /** For every section, with FDEs in any order, overlapping or not: after every history the first FDE
      that contains a pc is found, exactly when no FDE starts outside the FDEs before it while one of
      these starts inside it or at its end. */
  lemma FindsFirstExactly(entries: seq<Entry>)
    ensures FindsFirst(entries) <==> forall i: nat :: i < |entries| ==> !Trips(entries, i)
  {
    if i: nat :| i < |entries| && Trips(entries, i) {
      var k := FirstTrip(entries, i);
      TripLoses(entries, k);
    } else {
      forall n: nat, pc: nat | n <= |entries|
        ensures Found(entries, n, pc) == First(entries, pc)
      {
        OwnerIsFirst(entries, n);
        assert OwnedByFirst(entries, n, pc, Owner(entries, n, pc));
        if Scan(entries, 0, pc) >= n {
          ScanFrom(entries, n, pc);
        }
      }
    }
  }

  lemma ScanFrom(entries: seq<Entry>, n: nat, pc: nat)
    requires n <= Scan(entries, 0, pc)
    ensures n <= |entries| && Scan(entries, n, pc) == Scan(entries, 0, pc)
  {
    var i, k := Scan(entries, 0, pc), Scan(entries, n, pc);
    assert k < i ==> Contains(entries, k, pc);
    assert i < k ==> Contains(entries, i, pc);
  }

  /** Every FDE is non-empty and no two contain the same pc. */
  ghost predicate Separate(entries: seq<Entry>) {
    && (forall i :: 0 <= i < |entries| && entries[i].FdeEntry? ==> entries[i].fde.pcStart < entries[i].fde.pcEnd)
    && (forall i: nat, j: nat, pc: nat :: Contains(entries, i, pc) && Contains(entries, j, pc) ==> i == j)
  }

  /** FDE `j` starts exactly where FDE `i` ends. */
  predicate Follows(entries: seq<Entry>, j: nat, i: nat)
    requires j < |entries| && i < |entries|
  {
    entries[j].FdeEntry? && entries[i].FdeEntry? && entries[j].fde.pcStart == entries[i].fde.pcEnd
  }

  /** No FDE is read after the one that starts exactly where it ends. */
  ghost predicate NoAdjacentDescent(entries: seq<Entry>) {
    forall i, j :: 0 <= j < i < |entries| ==> !Follows(entries, j, i)
  }

  /** After any history, an FDE is found exactly when the section has one. */
  ghost predicate AgreesWithScan(entries: seq<Entry>) {
    forall n: nat, pc: nat :: n <= |entries| ==>
      (Found(entries, n, pc).Some? <==> Scan(entries, 0, pc) < |entries|)
  }

  lemma {:induction false} StaysUnowned(entries: seq<Entry>, n: nat, n': nat, pc: nat)
    requires n <= n' <= |entries| && Owner(entries, n, pc).None?
    requires forall m :: n <= m < n' ==> !Contains(entries, m, pc)
    ensures Owner(entries, n', pc).None?
    decreases n' - n
  {
    if n < n' {
      StaysUnowned(entries, n, n' - 1, pc);
      assert !Contains(entries, n' - 1, pc);
    }
  }

  /** When FDE `i` is read after the FDE that starts where it ends, one of the two is lost. */
  lemma AdjacentDescentLoses(entries: seq<Entry>, i: nat, j: nat) returns (pc: nat)
    requires Separate(entries) && j < i < |entries| && Follows(entries, j, i)
    ensures Scan(entries, 0, pc) < |entries| && Owner(entries, |entries|, pc).None?
  {
    var end := entries[i].fde.pcEnd;
    assert Contains(entries, j, end);
    if Owner(entries, i, end).None? {
      pc := end;
      StaysUnowned(entries, i, |entries|, pc);
    } else {
      pc := entries[i].fde.pcStart;
      assert Contains(entries, i, pc);
      if Owner(entries, i, pc).Some? {
        var o := OwnerContains(entries, i, pc);
      }
      assert InLeadingGap(entries, i, entries[i].fde, pc);
      StaysUnowned(entries, i + 1, |entries|, pc);
    }
  }

  /** Where FDEs do not overlap, only one that starts right at the end can make another trip. */
  lemma SeparateTrips(entries: seq<Entry>, i: nat)
    requires Separate(entries) && NoAdjacentDescent(entries) && i < |entries|
    ensures !Trips(entries, i)
  {
    if Trips(entries, i) {
      var j: nat :| j < i && StartsWithin(entries, j, i);
      assert !Contains(entries, i, entries[j].fde.pcStart);
      assert Follows(entries, j, i);
    }
  }

  /** For separate FDEs, lookups agree with a linear scan over every history exactly when no
      FDE is read after the one that starts where it ends. */
  lemma AgreesWithScanExactly(entries: seq<Entry>)
    requires Separate(entries)
    ensures AgreesWithScan(entries) <==> NoAdjacentDescent(entries)
  {
    if NoAdjacentDescent(entries) {
      forall i: nat | i < |entries|
        ensures !Trips(entries, i)
      {
        SeparateTrips(entries, i);
      }
      FindsFirstExactly(entries);
    } else {
      var i, j :| 0 <= j < i < |entries| && Follows(entries, j, i);
      var pc := AdjacentDescentLoses(entries, i, j);
      assert Found(entries, |entries|, pc).None?;
    }
  }

  /** FDEs in ascending order. */
  ghost predicate AscendingFdes(entries: seq<Entry>) {
    forall i, j :: 0 <= j < i < |entries| && entries[j].FdeEntry? && entries[i].FdeEntry? ==>
      entries[j].fde.pcEnd <= entries[i].fde.pcStart
  }

  /** Sections whose FDEs ascend are looked up faithfully. */
  lemma AscendingAgrees(entries: seq<Entry>)
    requires Separate(entries) && AscendingFdes(entries)
    ensures AgreesWithScan(entries)
  {
    AgreesWithScanExactly(entries);
  }

  /** The example in the comment above `InsertFde`: with [0x200, 0x400) indexed, the FDE
      [0x100, 0x500) is given only [0x400, 0x500), not [0x100, 0x200). */
  lemma LeadingPieceIsDropped(index: Index, earlier: Fde, fde: Fde)
    requires index == map[0x400 := Range(0x200, earlier)]
    requires fde.pcStart == 0x100 && fde.pcEnd == 0x500
    ensures LookupAfter(index, fde, 0x100) == None && LookupAfter(index, fde, 0x400) == Some(fde)
  {
    assert UpperBound(index.Keys, 0x100) == Some(0x400) by {
      assert 0x400 in index;
    }
    assert UpperBound(index.Keys, 0x400) == None;
  }

  /** In a section, [0x100, 0x500) after [0x200, 0x400) trips: 0x100 is in no other FDE and not found. */
  lemma LeadingPieceTrips(earlier: Fde, fde: Fde)
    requires earlier.pcStart == 0x200 && earlier.pcEnd == 0x400 && fde.pcStart == 0x100 && fde.pcEnd == 0x500
    ensures
      var entries := [FdeEntry(earlier), FdeEntry(fde)];
      && Trips(entries, 1) && First(entries, 0x100) == Some(fde) && Found(entries, 2, 0x100) == None
  {
    var entries := [FdeEntry(earlier), FdeEntry(fde)];
    assert StartsWithin(entries, 0, 1);
    assert !Trips(entries, 0);
    TripLoses(entries, 1);
    if Owner(entries, 2, 0x100).Some? {
      var i := OwnerContains(entries, 2, 0x100);
    }
  }

  class Reader {
    const entries: seq<Entry>
    var next: nat
    var index: Index

    constructor (entries: seq<Entry>)
      ensures this.entries == entries && next == 0 && index == map[] && Valid()
    {
      this.entries := entries;
      next := 0;
      index := map[];
    }

    /** Insert the ranges of `fde` that are not owned yet. */
    method InsertFde(fde: Fde)
      requires Disjoint(index)
      modifies this`index
      ensures Disjoint(index)
      ensures forall pc: nat :: Lookup(index, pc) == LookupAfter(old(index), fde, pc)
    {
      ghost var was := index;
      var start: nat := fde.pcStart;
      var end := fde.pcEnd;
      var it := UpperBound(index.Keys, start);
      var addElement := false;
      while it.Some? && start < end
        invariant DoneBelow(was, index, fde, start)
        invariant it == UpperBound(was.Keys, start) && fde.pcStart <= start
        invariant if addElement then start in was && FirstIndexed(was, fde) <= start else start == fde.pcStart
        decreases if it.Some? then 1 else 0, if start < end then end - start else 0
      {
        var k := it.value;
        var range := index[k];
        if addElement {
          addElement := false;
          if end < range.start {
            AddRest(was, index, fde, start);
            index := index[end := Range(start, fde)];
            return;
          }
          if start != range.start {
            PassRange(was, index, fde, start, k);
            index := index[range.start := Range(start, fde)];
          } else {
            PassAdjacentRange(was, index, fde, start, k);
          }
        } else if range.start <= end {
          PassAdjacentRange(was, index, fde, start, k);
        }
        if start < k {
          if end < range.start {
            AddRest(was, index, fde, start);
            index := index[end := Range(start, fde)];
            return;
          }
          addElement := true;
        }
        start := k;
        SameBoundAbove(was, index, start);
        it := UpperBound(index.Keys, k);
      }
      if start < end {
        AddRest(was, index, fde, start);
        index := index[end := Range(start, fde)];
      }
    }

    ghost predicate Valid()
      reads this
    {
      next <= |entries| && Indexes(index, entries, next)
    }

    /** `GetNextCieOrFde` on a well-formed entry. */
    method GetNextCieOrFde() returns (fde: Option<Fde>)
      requires next < |entries|
      modifies this`next
      ensures next == old(next) + 1
      ensures fde == match entries[old(next)] case CieEntry => None case FdeEntry(f) => Some(f)
    {
      fde := match entries[next] case CieEntry => None case FdeEntry(f) => Some(f);
      next := next + 1;
    }

    /** Reads one entry and indexes it. */
    method ReadNext() returns (fde: Option<Fde>)
      requires Valid() && next < |entries|
      modifies this`next, this`index
      ensures Valid() && next == old(next) + 1
      ensures fde == match entries[old(next)] case CieEntry => None case FdeEntry(f) => Some(f)
    {
      ghost var was := index;
      fde := GetNextCieOrFde();
      if fde.Some? {
        InsertFde(fde.value);
        InsertKeepsIndexes(was, index, entries, next - 1);
      }
    }

    method GetFdeFromPc(pc: nat) returns (r: Option<Fde>)
      requires Valid()
      modifies this`next, this`index
      ensures Valid() && old(next) <= next
      ensures r == Found(entries, old(next), pc)
    {
      var it := UpperBound(index.Keys, pc);
      if it.Some? {
        if index[it.value].start <= pc {
          return Some(index[it.value].fde);
        }
      }
      while next < |entries|
        invariant Valid() && old(next) <= next
        invariant Scan(entries, next, pc) == Scan(entries, old(next), pc)
        decreases |entries| - next
      {
        var fde := ReadNext();
        if fde.Some? && fde.value.pcStart <= pc < fde.value.pcEnd {
          return fde;
        }
      }
      return None;
    }

    /** All FDEs of the section, in section order, however many had been read before. */
    method GetFdes() returns (fdes: seq<Fde>)
      requires Valid()
      modifies this`next, this`index
      ensures Valid() && next == |entries|
      ensures fdes == FdesOf(entries, |entries|)
    {
      fdes := [];
      var i := 0;
      while i < next
        invariant i <= next <= |entries| && fdes == FdesOf(entries, i)
      {
        if entries[i].FdeEntry? {
          fdes := fdes + [entries[i].fde];
        }
        i := i + 1;
      }
      while next < |entries|
        invariant Valid() && fdes == FdesOf(entries, next)
        decreases |entries| - next
      {
        var fde := ReadNext();
        if fde.Some? {
          fdes := fdes + [fde.value];
        }
      }
    }
  }
}
