/**
 `LocalUpdatableMaps::Reparse` of Maps.cpp: new maps are parsed behind the old ones, maps that
 have not changed keep their old object, and old objects that are gone are kept aside because
 they may be in use. A slot whose pointer was moved away holds null.
 */
module Maps {
  import opened Sorting

  class MapInfo {
    const prevMap: MapInfo?
    const start: nat
    const end: nat
    const offset: nat
    const flags: nat
    const name: string

    constructor (prevMap: MapInfo?, start: nat, end: nat, offset: nat, flags: nat, name: string)
      ensures this.prevMap == prevMap && this.start == start && this.end == end && this.offset == offset
      ensures this.flags == flags && this.name == name
    {
      this.prevMap, this.start, this.end := prevMap, start, end;
      this.offset, this.flags, this.name := offset, flags, name;
    }
  }

  predicate Same(a: MapInfo, b: MapInfo) {
    a.start == b.start && a.end == b.end && a.flags == b.flags && a.name == b.name
  }

  predicate Before(maps: seq<MapInfo>, i: nat, j: nat)
    requires i < j < |maps|
  {
    maps[i].start < maps[j].start
  }

  ghost predicate Ascending(maps: seq<MapInfo>) {
    forall i: nat, j: nat {:trigger Before(maps, i, j)} :: i < j < |maps| ==> Before(maps, i, j)
  }

  // ---------------------------------------------------------------------------
  // What it is for

  ghost predicate Matched(m: MapInfo, others: seq<MapInfo>) {
    exists o :: o in others && Same(m, o)
  }

  /** The old object of an unchanged map, or the new one. */
  function Chosen(prior: seq<MapInfo>, m: MapInfo): (r: MapInfo)
    ensures Same(r, m)
    ensures r in prior || r == m
  {
    if prior == [] then m else if Same(prior[0], m) then prior[0] else Chosen(prior[1..], m)
  }

  /** The maps after a reparse: the new parse, with old objects where nothing changed. */
  function Updated(prior: seq<MapInfo>, parsed: seq<MapInfo>): (r: seq<MapInfo>)
    ensures |r| == |parsed|
    ensures forall j :: 0 <= j < |parsed| ==> r[j] == Chosen(prior, parsed[j])
  {
    if parsed == [] then [] else Updated(prior, parsed[..|parsed| - 1]) + [Chosen(prior, parsed[|parsed| - 1])]
  }

  /** The old maps that are gone, in order. */
  ghost function Gone(prior: seq<MapInfo>, parsed: seq<MapInfo>): seq<MapInfo> {
    if prior == [] then []
    else
      var m := prior[|prior| - 1];
      Gone(prior[..|prior| - 1], parsed) + if Matched(m, parsed) then [] else [m]
  }

  /** When the code does this: there were no maps, or the last old map is found again, or every
      new map starts before it. */
  ghost predicate Safe(prior: seq<MapInfo>, parsed: seq<MapInfo>) {
    || prior == []
    || Matched(prior[|prior| - 1], parsed)
    || forall m :: m in parsed ==> m.start < prior[|prior| - 1].start
  }

  /** `Ascending` for every pair at once. */
  lemma Pairs(maps: seq<MapInfo>)
    ensures Ascending(maps) <==> forall i, j :: 0 <= i < j < |maps| ==> maps[i].start < maps[j].start
  {
    if Ascending(maps) {
      forall i: nat, j: nat | i < j < |maps|
        ensures maps[i].start < maps[j].start
      {
        assert Before(maps, i, j);
      }
    }
  }

  lemma {:induction false} ChosenIsMatch(prior: seq<MapInfo>, m: MapInfo, k: nat)
    requires Ascending(prior) && k < |prior| && Same(prior[k], m)
    ensures Chosen(prior, m) == prior[k]
  {
    if k > 0 {
      Pairs(prior);
      Pairs(prior[1..]);
      ChosenIsMatch(prior[1..], m, k - 1);
    }
  }

  lemma {:induction false} ChosenIsNew(prior: seq<MapInfo>, m: MapInfo)
    requires !Matched(m, prior)
    ensures Chosen(prior, m) == m
  {
    if prior != [] {
      assert !Same(m, prior[0]);
      ChosenIsNew(prior[1..], m);
    }
  }

  lemma {:induction false} GoneExactly(prior: seq<MapInfo>, parsed: seq<MapInfo>, m: MapInfo)
    ensures m in Gone(prior, parsed) <==> m in prior && !Matched(m, parsed)
  {
    if prior != [] {
      GoneExactly(prior[..|prior| - 1], parsed, m);
    }
  }

  lemma {:induction false} GoneAscends(prior: seq<MapInfo>, parsed: seq<MapInfo>)
    requires Ascending(prior)
    ensures Ascending(Gone(prior, parsed))
    ensures forall m :: m in Gone(prior, parsed) ==> m in prior
  {
    if prior != [] {
      var before := prior[..|prior| - 1];
      Pairs(prior);
      Pairs(before);
      GoneAscends(before, parsed);
      Pairs(Gone(before, parsed));
      Pairs(Gone(prior, parsed));
      forall m | m in Gone(before, parsed)
        ensures m.start < prior[|prior| - 1].start
      {
        var k :| 0 <= k < |before| && before[k] == m;
      }
    }
  }

  /** Every old object ends up in the maps or aside, never in both, and nothing else does but
      the new objects of maps that changed. */
  lemma OldObjectsAreConserved(prior: seq<MapInfo>, parsed: seq<MapInfo>, m: MapInfo)
    requires Ascending(prior) && Ascending(parsed)
    requires forall a, b :: a in prior && b in parsed ==> a != b
    ensures m in prior ==> (m in Updated(prior, parsed) <==> m !in Gone(prior, parsed))
    ensures m in parsed ==> (m in Updated(prior, parsed) <==> !Matched(m, prior)) && m !in Gone(prior, parsed)
    ensures Ascending(Updated(prior, parsed)) && Ascending(Gone(prior, parsed))
  {
    GoneExactly(prior, parsed, m);
    GoneAscends(prior, parsed);
    Pairs(parsed);
    Pairs(Updated(prior, parsed));
    if m in prior && Matched(m, parsed) {
      var k :| 0 <= k < |prior| && prior[k] == m;
      var j :| 0 <= j < |parsed| && Same(m, parsed[j]);
      ChosenIsMatch(prior, parsed[j], k);
      assert Updated(prior, parsed)[j] == m;
    }
    if m in parsed {
      var j :| 0 <= j < |parsed| && parsed[j] == m;
      if Matched(m, prior) {
        assert forall i :: 0 <= i < |parsed| && Chosen(prior, parsed[i]) == m ==> parsed[i].start == m.start;
        var k :| 0 <= k < |prior| && Same(m, prior[k]);
        ChosenIsMatch(prior, m, k);
      } else {
        ChosenIsNew(prior, m);
        assert Updated(prior, parsed)[j] == m;
      }
    }
  }

  // ---------------------------------------------------------------------------
  // The previous map

  /** Parsing links each new map to the one before it, the first to the last old map. */
  ghost predicate Linked(prior: seq<MapInfo>, parsed: seq<MapInfo>) {
    forall j :: 0 <= j < |parsed| ==> parsed[j].prevMap == MapBefore(prior, parsed, j)
  }

  function MapBefore(prior: seq<MapInfo>, parsed: seq<MapInfo>, j: nat): MapInfo?
    requires j < |parsed|
  {
    if j > 0 then parsed[j - 1] else if prior == [] then null else prior[|prior| - 1]
  }

  /** The previous map of every map that is kept is null or kept. */
  ghost predicate LinksLive(maps: seq<MapInfo>, saved: seq<MapInfo>) {
    forall m :: m in maps + saved ==> m.prevMap == null || m.prevMap in maps || m.prevMap in saved
  }

  /** No map that has changed comes right after one that has not. */
  ghost predicate ChangedComeFirst(prior: seq<MapInfo>, parsed: seq<MapInfo>) {
    forall j :: 0 < j < |parsed| && Matched(parsed[j - 1], prior) ==> Matched(parsed[j], prior)
  }

  lemma KeptStaysKept(prior: seq<MapInfo>, parsed: seq<MapInfo>, saved: seq<MapInfo>, m: MapInfo)
    requires Ascending(prior) && Ascending(parsed)
    requires forall a, b :: a in prior && b in parsed ==> a != b
    requires m in prior || m in saved
    ensures m in Updated(prior, parsed) || m in saved + Gone(prior, parsed)
  {
    OldObjectsAreConserved(prior, parsed, m);
  }

  lemma NewIsLinkedLive(prior: seq<MapInfo>, parsed: seq<MapInfo>, saved: seq<MapInfo>, j: nat)
    requires Ascending(prior) && Ascending(parsed) && Linked(prior, parsed) && j < |parsed|
    requires forall a, b :: a in prior && b in parsed ==> a != b
    requires forall m :: m in saved ==> m !in parsed
    ensures
      var prev := parsed[j].prevMap;
      (prev == null || prev in Updated(prior, parsed) || prev in saved + Gone(prior, parsed))
      <==> (j > 0 ==> !Matched(parsed[j - 1], prior))
  {
    if j > 0 {
      var prev := parsed[j - 1];
      assert prev in parsed && parsed[j].prevMap == prev;
      OldObjectsAreConserved(prior, parsed, prev);
    } else if prior != [] {
      var prev := prior[|prior| - 1];
      assert prev in prior && parsed[j].prevMap == prev;
      KeptStaysKept(prior, parsed, saved, prev);
    }
  }

  /** The duplicate of an unchanged map is freed although the next new map is linked to it: after an
      update all links lead to live maps, exactly when no changed map comes right after an
      unchanged one. */
  lemma LinksLiveExactly(prior: seq<MapInfo>, parsed: seq<MapInfo>, saved: seq<MapInfo>)
    requires Ascending(prior) && Ascending(parsed) && Linked(prior, parsed) && LinksLive(prior, saved)
    requires forall a, b :: a in prior && b in parsed ==> a != b
    requires forall m :: m in saved ==> m !in parsed
    ensures LinksLive(Updated(prior, parsed), saved + Gone(prior, parsed)) <==> ChangedComeFirst(prior, parsed)
  {
    if ChangedComeFirst(prior, parsed) {
      KeptAreLinkedLive(prior, parsed, saved);
    } else {
      var j :| 0 < j < |parsed| && Matched(parsed[j - 1], prior) && !Matched(parsed[j], prior);
      assert parsed[j] in parsed;
      OldObjectsAreConserved(prior, parsed, parsed[j]);
      NewIsLinkedLive(prior, parsed, saved, j);
    }
  }

  lemma KeptAreLinkedLive(prior: seq<MapInfo>, parsed: seq<MapInfo>, saved: seq<MapInfo>)
    requires Ascending(prior) && Ascending(parsed) && Linked(prior, parsed) && LinksLive(prior, saved)
    requires forall a, b :: a in prior && b in parsed ==> a != b
    requires forall m :: m in saved ==> m !in parsed
    requires ChangedComeFirst(prior, parsed)
    ensures LinksLive(Updated(prior, parsed), saved + Gone(prior, parsed))
  {
    var maps, aside := Updated(prior, parsed), saved + Gone(prior, parsed);
    forall m: MapInfo | m in maps + aside
      ensures m.prevMap == null || m.prevMap in maps || m.prevMap in aside
    {
      KeptIsLinkedLive(prior, parsed, saved, m);
    }
  }

  lemma KeptIsLinkedLive(prior: seq<MapInfo>, parsed: seq<MapInfo>, saved: seq<MapInfo>, m: MapInfo)
    requires Ascending(prior) && Ascending(parsed) && Linked(prior, parsed) && LinksLive(prior, saved)
    requires forall a, b :: a in prior && b in parsed ==> a != b
    requires forall m :: m in saved ==> m !in parsed
    requires ChangedComeFirst(prior, parsed) && (m in Updated(prior, parsed) || m in saved + Gone(prior, parsed))
    ensures m.prevMap == null || m.prevMap in Updated(prior, parsed) || m.prevMap in saved + Gone(prior, parsed)
  {
    GoneExactly(prior, parsed, m);
    if m in prior || m in saved {
      if m.prevMap != null {
        KeptStaysKept(prior, parsed, saved, m.prevMap);
      }
    } else {
      var j :| 0 <= j < |parsed| && Updated(prior, parsed)[j] == m;
      assert m == parsed[j] && m in parsed;
      OldObjectsAreConserved(prior, parsed, m);
      NewIsLinkedLive(prior, parsed, saved, j);
    }
  }

  /** One map stays and a new one follows it: a safe update, and a dead link. */
  lemma NewMapHasDeadLink(a: MapInfo, a': MapInfo, b: MapInfo)
    requires Same(a, a') && a != a' && a.start < b.start && a != b
    requires a.prevMap == null && a'.prevMap == a && b.prevMap == a'
    ensures Safe([a], [a', b]) && Linked([a], [a', b]) && LinksLive([a], [])
    ensures !LinksLive(Updated([a], [a', b]), [] + Gone([a], [a', b]))
  {
    assert a' in [a', b] && a in [a];
    assert forall m :: m in [a] ==> m == a;
    assert !Matched(b, [a]);
    LinksLiveExactly([a], [a', b], []);
  }

  // ---------------------------------------------------------------------------
  // The final sort

  /** The order of the sort: by start, null last. */
  predicate Less(a: MapInfo?, b: MapInfo?) {
    a != null && (b == null || a.start < b.start)
  }

  /** Ascending, with the nulls at the end. */
  ghost predicate Shaped(s: seq<MapInfo?>) {
    forall i, j :: 0 <= i < j < |s| && s[j] != null ==> s[i] != null && s[i].start < s[j].start
  }

  ghost predicate DistinctStarts(s: seq<MapInfo?>) {
    forall i, j :: 0 <= i < j < |s| && s[i] != null && s[j] != null ==> s[i].start != s[j].start
  }

  lemma {:induction false} InsertShaped(x: MapInfo?, s: seq<MapInfo?>)
    requires Shaped(s) && (x != null ==> forall y :: y in s && y != null ==> y.start != x.start)
    ensures Shaped(Insert(x, s, Less))
  {
    if s != [] && !Less(x, s[0]) {
      var rest := Insert(x, s[1..], Less);
      InsertShaped(x, s[1..]);
      forall j | 0 <= j < |rest| && rest[j] != null
        ensures s[0] != null && s[0].start < rest[j].start
      {
        InsertHas(x, s[1..], Less, rest[j]);
        assert rest[j] in s[1..] ==> exists k :: 0 < k < |s| && s[k] == rest[j];
      }
    }
  }

  lemma {:induction false} SortShaped(s: seq<MapInfo?>)
    requires DistinctStarts(s)
    ensures Shaped(Sort(s, Less))
  {
    if s != [] {
      SortShaped(s[1..]);
      forall y | y in Sort(s[1..], Less) && y != null && s[0] != null
        ensures y.start != s[0].start
      {
        SortHas(s[1..], Less, y);
        var k :| 0 <= k < |s[1..]| && s[1..][k] == y;
        assert s[k + 1] == y;
      }
      InsertShaped(s[0], Sort(s[1..], Less));
    }
  }

  /** There is only one way to have these maps in order. */
  lemma {:induction false} ShapedIs(s: seq<MapInfo?>, maps: seq<MapInfo>)
    requires Shaped(s) && Ascending(maps) && forall m: MapInfo :: m in s <==> m in maps
    ensures |maps| <= |s| && forall i :: 0 <= i < |maps| ==> s[i] == maps[i]
  {
    if maps != [] {
      Pairs(maps);
      Pairs(maps[1..]);
      assert maps[0] in s;
      var k :| 0 <= k < |s| && s[k] == maps[0];
      assert s[0] != null;
      assert s[0] in maps;
      var i :| 0 <= i < |maps| && maps[i] == s[0];
      assert s[0] == maps[0];
      forall m: MapInfo
        ensures m in s[1..] <==> m in maps[1..]
      {
        RestHas(s, m);
        assert m in maps[1..] <==> m in maps && m != maps[0];
      }
      ShapedIs(s[1..], maps[1..]);
    }
  }

  lemma RestHas(s: seq<MapInfo?>, m: MapInfo)
    requires Shaped(s) && s != []
    ensures m in s[1..] <==> m in s && m != s[0]
  {
    assert s == [s[0]] + s[1..];
  }

  /** With one old map and another new one behind it the code does not work. */
  lemma MapBehindTheLastIsUnsafe(a: MapInfo, b: MapInfo)
    requires a.start < b.start
    ensures !Safe([a], [b])
  {
    assert b in [b] && !(b.start < a.start);
  }

  // ---------------------------------------------------------------------------
  // The loops

  /** The slots when the first `s` old maps and the first `j` new ones have been dealt with. */
  ghost predicate Slots(maps: seq<MapInfo?>, prior: seq<MapInfo>, parsed: seq<MapInfo>, s: nat, j: nat) {
    && |maps| == |prior| + |parsed| && s <= |prior| && j <= |parsed|
    && (forall i :: 0 <= i < |prior| ==> maps[i] == if i < s && !Matched(prior[i], parsed) then null else prior[i])
    && (forall i :: |prior| <= i < |maps| ==>
          maps[i] == if i < |prior| + j && Matched(parsed[i - |prior|], prior) then null else parsed[i - |prior|])
  }

  /** Old maps up to `s` do not start after the new maps up to `j`; the others start after them. */
  ghost predicate Between(prior: seq<MapInfo>, parsed: seq<MapInfo>, s: nat, j: nat)
    requires s <= |prior| && j <= |parsed|
  {
    && (s > 0 ==> j > 0 && prior[s - 1].start <= parsed[j - 1].start)
    && (j > 0 && s < |prior| ==> parsed[j - 1].start < prior[s].start)
  }

  /** The old maps from `s` up to `k` are gone, and do not start after new map `j`. */
  ghost predicate Passed(prior: seq<MapInfo>, parsed: seq<MapInfo>, s: nat, k: nat, j: nat)
    requires k <= |prior| && j < |parsed|
  {
    forall i :: s <= i < k ==> !Matched(prior[i], parsed) && prior[i].start <= parsed[j].start
  }

  /** An old map that starts between two new ones and is not the first of them is gone. */
  lemma PassOne(prior: seq<MapInfo>, parsed: seq<MapInfo>, s: nat, k: nat, j: nat)
    requires Ascending(prior) && Ascending(parsed) && s <= k < |prior| && j < |parsed|
    requires Between(prior, parsed, s, j) && Passed(prior, parsed, s, k, j)
    requires !Same(parsed[j], prior[k]) && prior[k].start <= parsed[j].start
    ensures !Matched(prior[k], parsed) && Passed(prior, parsed, s, k + 1, j)
  {
    Pairs(prior);
    Pairs(parsed);
    forall m | m in parsed
      ensures !Same(prior[k], m)
    {
      var i :| 0 <= i < |parsed| && parsed[i] == m;
    }
  }

  /** A new map is not found if it is none of those up to `k` and the others start after it. */
  lemma IsNew(prior: seq<MapInfo>, parsed: seq<MapInfo>, s: nat, k: nat, j: nat)
    requires Ascending(prior) && Ascending(parsed) && s <= k <= |prior| && j < |parsed|
    requires Between(prior, parsed, s, j) && Passed(prior, parsed, s, k, j)
    requires k < |prior| ==> parsed[j].start < prior[k].start
    ensures !Matched(parsed[j], prior) && Between(prior, parsed, k, j + 1)
  {
    Pairs(prior);
    Pairs(parsed);
    forall m | m in prior
      ensures !Same(parsed[j], m)
    {
      var i :| 0 <= i < |prior| && prior[i] == m;
      assert s <= i < k ==> !Matched(prior[i], parsed) && parsed[j] in parsed;
    }
  }

  /** The slots, and what has been put aside. */
  ghost predicate Dealt(maps: seq<MapInfo?>, saved: seq<MapInfo?>, saved0: seq<MapInfo?>,
                        prior: seq<MapInfo>, parsed: seq<MapInfo>, s: nat, j: nat)
  {
    Slots(maps, prior, parsed, s, j) && saved == saved0 + Gone(prior[..s], parsed)
  }

  lemma DealtMatch(maps: seq<MapInfo?>, saved: seq<MapInfo?>, saved0: seq<MapInfo?>,
                   prior: seq<MapInfo>, parsed: seq<MapInfo>, k: nat, j: nat)
    requires Dealt(maps, saved, saved0, prior, parsed, k, j) && k < |prior| && j < |parsed| && Same(parsed[j], prior[k])
    ensures Dealt(maps[|prior| + j := null], saved, saved0, prior, parsed, k + 1, j + 1) && Matched(prior[k], parsed)
  {
    assert parsed[j] in parsed && Same(prior[k], parsed[j]);
    assert prior[k] in prior && Same(parsed[j], prior[k]);
    assert prior[..k + 1][..k] == prior[..k];
  }

  lemma DealtNew(maps: seq<MapInfo?>, saved: seq<MapInfo?>, saved0: seq<MapInfo?>,
                 prior: seq<MapInfo>, parsed: seq<MapInfo>, k: nat, j: nat)
    requires Dealt(maps, saved, saved0, prior, parsed, k, j) && j < |parsed| && !Matched(parsed[j], prior)
    ensures Dealt(maps, saved, saved0, prior, parsed, k, j + 1)
  {
  }

  lemma DealtGone(maps: seq<MapInfo?>, saved: seq<MapInfo?>, saved0: seq<MapInfo?>,
                  prior: seq<MapInfo>, parsed: seq<MapInfo>, k: nat, j: nat)
    requires Dealt(maps, saved, saved0, prior, parsed, k, j) && k < |prior| && !Matched(prior[k], parsed)
    ensures Dealt(maps[k := null], saved + [prior[k]], saved0, prior, parsed, k + 1, j)
  {
    assert prior[..k + 1][..k] == prior[..k];
  }

  /** New maps after the last old one are not found. */
  lemma RestIsNew(maps: seq<MapInfo?>, saved: seq<MapInfo?>, saved0: seq<MapInfo?>,
                  prior: seq<MapInfo>, parsed: seq<MapInfo>, j: nat)
    requires Ascending(prior) && Ascending(parsed) && j <= |parsed|
    requires Between(prior, parsed, |prior|, j) && Dealt(maps, saved, saved0, prior, parsed, |prior|, j)
    ensures Dealt(maps, saved, saved0, prior, parsed, |prior|, |parsed|)
  {
    Pairs(prior);
    Pairs(parsed);
    forall i | j <= i < |parsed|
      ensures !Matched(parsed[i], prior)
    {
      forall m | m in prior
        ensures !Same(parsed[i], m)
      {
        var k :| 0 <= k < |prior| && prior[k] == m;
      }
    }
  }

  lemma BetweenEnd(prior: seq<MapInfo>, parsed: seq<MapInfo>, j: nat)
    requires Ascending(parsed) && j <= |parsed| && Between(prior, parsed, |prior|, j)
    ensures Between(prior, parsed, |prior|, |parsed|)
  {
    Pairs(parsed);
  }

  /** Old maps after the last new one are gone. */
  lemma RestIsGone(prior: seq<MapInfo>, parsed: seq<MapInfo>, s: nat, i: nat)
    requires Ascending(prior) && Ascending(parsed) && s <= i < |prior| && Between(prior, parsed, s, |parsed|)
    ensures !Matched(prior[i], parsed)
  {
    Pairs(prior);
    Pairs(parsed);
    forall m | m in parsed
      ensures !Same(prior[i], m)
    {
      var k :| 0 <= k < |parsed| && parsed[k] == m;
    }
  }

  function Nulled(maps: seq<MapInfo?>, s: nat, n: nat): (r: seq<MapInfo?>)
    requires s <= n <= |maps|
    ensures |r| == |maps|
    ensures forall i :: 0 <= i < |maps| ==> r[i] == if s <= i < n then null else maps[i]
  {
    seq(|maps|, i requires 0 <= i < |maps| => if s <= i < n then null else maps[i])
  }

  lemma {:induction false} RestPutAside(maps: seq<MapInfo?>, saved: seq<MapInfo?>, saved0: seq<MapInfo?>,
                                        prior: seq<MapInfo>, parsed: seq<MapInfo>, s: nat, n: nat)
    requires Ascending(prior) && Ascending(parsed) && s <= n <= |prior|
    requires Between(prior, parsed, s, |parsed|) && Dealt(maps, saved, saved0, prior, parsed, s, |parsed|)
    ensures Dealt(Nulled(maps, s, n), saved + maps[s..n], saved0, prior, parsed, n, |parsed|)
    decreases n
  {
    if s == n {
      assert Nulled(maps, s, n) == maps;
    } else {
      RestPutAside(maps, saved, saved0, prior, parsed, s, n - 1);
      RestIsGone(prior, parsed, s, n - 1);
      DealtGone(Nulled(maps, s, n - 1), saved + maps[s..n - 1], saved0, prior, parsed, n - 1, |parsed|);
      OneMoreNulled(maps, saved, s, n);
    }
  }

  lemma OneMoreNulled(maps: seq<MapInfo?>, saved: seq<MapInfo?>, s: nat, n: nat)
    requires s < n <= |maps|
    ensures Nulled(maps, s, n - 1)[n - 1 := null] == Nulled(maps, s, n)
    ensures saved + maps[s..n - 1] + [maps[n - 1]] == saved + maps[s..n]
  {
    assert maps[s..n] == maps[s..n - 1] + [maps[n - 1]];
  }

  /** A map is left in a slot exactly when it is one of the updated maps. */
  lemma SlotsHold(maps: seq<MapInfo?>, prior: seq<MapInfo>, parsed: seq<MapInfo>, m: MapInfo)
    requires Ascending(prior) && Ascending(parsed) && Slots(maps, prior, parsed, |prior|, |parsed|)
    requires forall a, b :: a in prior && b in parsed ==> a != b
    ensures m in maps <==> m in Updated(prior, parsed)
  {
    OldObjectsAreConserved(prior, parsed, m);
    GoneExactly(prior, parsed, m);
    if m in maps {
      var i :| 0 <= i < |maps| && maps[i] == m;
      assert i < |prior| ==> m == prior[i] && m in prior;
      assert i >= |prior| ==> m == parsed[i - |prior|] && m in parsed;
    }
    if m in Updated(prior, parsed) {
      assert m in prior || m in parsed;
      if m in prior {
        var i :| 0 <= i < |prior| && prior[i] == m;
        assert maps[i] == m;
      } else {
        var i :| 0 <= i < |parsed| && parsed[i] == m;
        assert maps[|prior| + i] == m;
      }
    }
  }

  lemma SlotsDistinct(maps: seq<MapInfo?>, prior: seq<MapInfo>, parsed: seq<MapInfo>)
    requires Ascending(prior) && Ascending(parsed) && Slots(maps, prior, parsed, |prior|, |parsed|)
    ensures DistinctStarts(maps)
  {
    Pairs(prior);
    Pairs(parsed);
    forall i, j | 0 <= i < j < |maps| && maps[i] != null && maps[j] != null
      ensures maps[i].start != maps[j].start
    {
      if i < |prior| <= j {
        var n :| n in parsed && Same(prior[i], n);
        var k :| 0 <= k < |parsed| && parsed[k] == n;
        assert prior[i] in prior && Same(parsed[k], prior[i]);
        assert maps[|prior| + k] == null;
      }
    }
  }

  /** Sorting the slots gives the updated maps. */
  lemma SortsToUpdated(maps: seq<MapInfo?>, prior: seq<MapInfo>, parsed: seq<MapInfo>)
    requires Ascending(prior) && Ascending(parsed) && Slots(maps, prior, parsed, |prior|, |parsed|)
    requires forall a, b :: a in prior && b in parsed ==> a != b
    ensures Sort(maps, Less)[..|parsed|] == Updated(prior, parsed)
  {
    var updated := Updated(prior, parsed);
    forall m: MapInfo
      ensures m in Sort(maps, Less) <==> m in updated
    {
      SortHas(maps, Less, m);
      SlotsHold(maps, prior, parsed, m);
    }
    SlotsDistinct(maps, prior, parsed);
    SortShaped(maps);
    Pairs(parsed);
    Pairs(updated);
    ShapedIs(Sort(maps, Less), updated);
  }

  /** Where the search for new maps stands. Once it has run off the end of the old maps it keeps
      looking from the same place, where every slot has been emptied. */
  ghost predicate Standing(maps: seq<MapInfo?>, saved: seq<MapInfo?>, saved0: seq<MapInfo?>,
                           prior: seq<MapInfo>, parsed: seq<MapInfo>, s: nat, j: nat, total: int, ranOff: bool)
  {
    && s <= |prior| && j <= |parsed|
    && if ranOff then
         && s < |prior| && j > 0 && Passed(prior, parsed, s, |prior|, j - 1)
         && Slots(maps, prior, parsed, |prior|, j) && total == |parsed|
       else
         && Between(prior, parsed, s, j) && Dealt(maps, saved, saved0, prior, parsed, s, j)
         && total == |prior| + |parsed| - s
         && (s == |prior| > 0 ==> Matched(prior[s - 1], parsed))
  }

  /** Running off the end is what makes an update unsafe. */
  lemma RanOffIsUnsafe(prior: seq<MapInfo>, parsed: seq<MapInfo>, s: nat, j: nat)
    requires s < |prior| && j < |parsed| && Passed(prior, parsed, s, |prior|, j)
    ensures !Safe(prior, parsed)
  {
    assert parsed[j] in parsed;
  }

  lemma NeverRanOffIsSafe(prior: seq<MapInfo>, parsed: seq<MapInfo>, s: nat)
    requires Ascending(prior) && Ascending(parsed) && s <= |prior| && Between(prior, parsed, s, |parsed|)
    requires s == |prior| > 0 ==> Matched(prior[s - 1], parsed)
    ensures Safe(prior, parsed)
  {
    Pairs(prior);
    Pairs(parsed);
    if s < |prior| {
      forall m | m in parsed
        ensures m.start < prior[|prior| - 1].start
      {
        var k :| 0 <= k < |parsed| && parsed[k] == m;
      }
    }
  }

  /** `NullDereference` and `LengthError` are crashes: the code reads through a null slot, or
      resizes to a negative size. */
  datatype Outcome = Done | ParseFailed | NullDereference | LengthError

  datatype Visit = IsSame | IsLater | WentAside

  datatype Search = Found(next: nat) | Stopped(next: nat) | RanOff

  class LocalUpdatableMaps {
    var maps: seq<MapInfo?>
    var saved: seq<MapInfo?>

    /** Compares new map `j` with old map `k`, which it puts aside if it is neither the same nor
        starts later. */
    method VisitOld(s: nat, k: nat, last: nat, j: nat,
                    ghost prior: seq<MapInfo>, ghost parsed: seq<MapInfo>, ghost saved0: seq<MapInfo?>)
      returns (r: Visit)
      requires Ascending(prior) && Ascending(parsed) && s <= k < last == |prior| && j < |parsed|
      requires Between(prior, parsed, s, j) && Passed(prior, parsed, s, k, j)
      requires Dealt(maps, saved, saved0, prior, parsed, k, j)
      modifies this
      ensures
        match r
        case IsSame =>
          && Matched(prior[k], parsed)
          && Between(prior, parsed, k + 1, j + 1) && Dealt(maps, saved, saved0, prior, parsed, k + 1, j + 1)
        case IsLater => Between(prior, parsed, k, j + 1) && Dealt(maps, saved, saved0, prior, parsed, k, j + 1)
        case WentAside => Passed(prior, parsed, s, k + 1, j) && Dealt(maps, saved, saved0, prior, parsed, k + 1, j)
    {
      var m, info := maps[last + j], maps[k];
      if Same(m, info) {
        DealtMatch(maps, saved, saved0, prior, parsed, k, j);
        assert k + 1 < last ==> Before(prior, k, k + 1);
        maps := maps[last + j := null];
        return IsSame;
      }
      if info.start > m.start {
        IsNew(prior, parsed, s, k, j);
        DealtNew(maps, saved, saved0, prior, parsed, k, j);
        return IsLater;
      }
      PassOne(prior, parsed, s, k, j);
      DealtGone(maps, saved, saved0, prior, parsed, k, j);
      saved := saved + [info];
      maps := maps[k := null];
      return WentAside;
    }

    /** Looks for new map `j` among the old maps from `s` on, of which there are `last`. */
    method FindOld(s: nat, last: nat, j: nat, total: int,
                   ghost prior: seq<MapInfo>, ghost parsed: seq<MapInfo>, ghost saved0: seq<MapInfo?>)
      returns (r: Search, left: int)
      requires Ascending(prior) && Ascending(parsed) && s <= last == |prior| && j < |parsed|
      requires Between(prior, parsed, s, j) && Dealt(maps, saved, saved0, prior, parsed, s, j)
      modifies this
      ensures left == total - ((if r.RanOff? then last else r.next) - s)
      ensures
        match r
        case Found(next) =>
          && s < next <= last && Matched(prior[next - 1], parsed)
          && Between(prior, parsed, next, j + 1) && Dealt(maps, saved, saved0, prior, parsed, next, j + 1)
        case Stopped(next) =>
          && s <= next < last
          && Between(prior, parsed, next, j + 1) && Dealt(maps, saved, saved0, prior, parsed, next, j + 1)
        case RanOff =>
          && Passed(prior, parsed, s, last, j)
          && Between(prior, parsed, last, j + 1) && Dealt(maps, saved, saved0, prior, parsed, last, j + 1)
    {
      var k := s;
      left := total;
      while k < last
        invariant s <= k <= last && Dealt(maps, saved, saved0, prior, parsed, k, j) && Passed(prior, parsed, s, k, j)
        invariant left == total - (k - s)
      {
        var visit := VisitOld(s, k, last, j, prior, parsed, saved0);
        if visit.IsSame? {
          return Found(k + 1), left - 1;
        } else if visit.IsLater? {
          return Stopped(k), left;
        }
        left := left - 1;
        k := k + 1;
      }
      IsNew(prior, parsed, s, last, j);
      DealtNew(maps, saved, saved0, prior, parsed, last, j);
      r := RanOff;
    }

    /** Moves the old maps from `s` on aside. */
    method PutAside(s: nat, last: nat, total: int) returns (left: int)
      requires s <= last <= |maps|
      modifies this
      ensures maps == Nulled(old(maps), s, last) && saved == old(saved) + old(maps)[s..last]
      ensures left == total - (last - s)
    {
      left := total;
      var i := s;
      while i < last
        invariant s <= i <= last && maps == Nulled(old(maps), s, i)
        invariant saved == old(saved) + old(maps)[s..i] && left == total - (i - s)
      {
        saved := saved + [maps[i]];
        maps := maps[i := null];
        left := left - 1;
        i := i + 1;
      }
    }

    /** One round of the search: looks for new map `j`, unless it reads through an empty slot. */
    method SearchOne(s: nat, last: nat, j: nat, total: int, ghost ranOff: bool,
                     ghost prior: seq<MapInfo>, ghost parsed: seq<MapInfo>, ghost saved0: seq<MapInfo?>)
      returns (crashed: bool, next: nat, left: int, ghost off: bool)
      requires Ascending(prior) && Ascending(parsed) && last == |prior| && j < |parsed|
      requires Standing(maps, saved, saved0, prior, parsed, s, j, total, ranOff)
      modifies this
      ensures crashed <==> ranOff
      ensures !crashed ==> Standing(maps, saved, saved0, prior, parsed, next, j + 1, left, off)
    {
      if s < last && maps[s] == null {
        return true, s, total, ranOff;
      }
      var r;
      r, left := FindOld(s, last, j, total, prior, parsed, saved0);
      crashed, off := false, r.RanOff? && s < last;
      next := if r.RanOff? then s else r.next;
    }

    /** Looks for the new maps one after the other, until all old ones have been dealt with. */
    method SearchAll(last: nat, ghost prior: seq<MapInfo>, ghost parsed: seq<MapInfo>)
      returns (crashed: bool, s: nat, total: int, ghost ranOff: bool)
      requires Ascending(prior) && Ascending(parsed) && last == |prior| && maps == prior + parsed
      modifies this
      ensures crashed ==> !Safe(prior, parsed)
      ensures !crashed ==> Standing(maps, saved, old(saved), prior, parsed, s, |parsed|, total, ranOff)
    {
      crashed, s, total, ranOff := false, 0, |maps|, false;
      var j := 0;
      while last + j < |maps|
        invariant |maps| == last + |parsed|
        invariant Standing(maps, saved, old(saved), prior, parsed, s, j, total, ranOff)
      {
        if ranOff {
          RanOffIsUnsafe(prior, parsed, s, j - 1);
        }
        crashed, s, total, ranOff := SearchOne(s, last, j, total, ranOff, prior, parsed, old(saved));
        if crashed {
          return;
        }
        j := j + 1;
        if s >= last {
          RestIsNew(maps, saved, old(saved), prior, parsed, j);
          BetweenEnd(prior, parsed, j);
          return;
        }
      }
    }

    /** `parsed` is what parsing the maps file appends, whole or not. The update is right exactly
        when it is safe; otherwise it crashes or loses maps. */
    method Reparse(ok: bool, parsed: seq<MapInfo>, ghost prior: seq<MapInfo>) returns (outcome: Outcome)
      requires maps == prior && Ascending(prior) && (ok ==> Ascending(parsed))
      requires forall a, b :: a in prior && b in parsed ==> a != b
      modifies this
      ensures !ok ==> outcome == ParseFailed && maps == prior && saved == old(saved)
      ensures ok && Safe(prior, parsed) ==>
        outcome == Done && maps == Updated(prior, parsed) && saved == old(saved) + Gone(prior, parsed)
      ensures ok && !Safe(prior, parsed) ==>
        outcome == NullDereference || outcome == LengthError || (outcome == Done && |maps| < |parsed|)
    {
      var last := |maps|;
      maps := maps + parsed;
      if !ok {
        maps := maps[..last];
        return ParseFailed;
      }
      var crashed, s, total;
      ghost var ranOff;
      crashed, s, total, ranOff := SearchAll(last, prior, parsed);
      if crashed {
        return NullDereference;
      }
      if ranOff {
        RanOffIsUnsafe(prior, parsed, s, |parsed| - 1);
      } else {
        NeverRanOffIsSafe(prior, parsed, s);
        RestPutAside(maps, saved, old(saved), prior, parsed, s, last);
      }
      total := PutAside(s, last, total);
      if total < 0 {
        return LengthError;
      }
      if !ranOff {
        SortsToUpdated(maps, prior, parsed);
        assert prior[..last] == prior;
      }
      maps := Sort(maps, Less)[..total];
      return Done;
    }
  }
}
