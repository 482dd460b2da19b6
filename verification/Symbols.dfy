/**
 The symbol lookup of Symbols.cpp: `GetName` reads the symbol table from where it stopped the
 last time, keeps the functions it has seen sorted by address, and looks there first.
 */
module Symbols {
  import opened Basics
  import opened Sorting

  /** An entry of the symbol table; `defined` and `function` come from st_shndx and st_info. */
  datatype Sym = Sym(defined: bool, function_: bool, value: nat, size: nat, name: nat)

  datatype Info = Info(start: nat, end: nat, str: nat)

  datatype Name = Name(name: string, offset: nat)

  predicate Contains(info: Info, addr: nat) {
    info.start <= addr < info.end
  }

  predicate Less(a: Info, b: Info) {
    a.start < b.start
  }

  predicate Apart(a: Info, b: Info) {
    a.end <= b.start || b.end <= a.start
  }

  predicate SameRange(a: Info, b: Info) {
    a.start == b.start && a.end == b.end
  }

  /** `inner` starts inside `outer` and ends before it, or is empty there. */
  predicate Inside(inner: Info, outer: Info) {
    outer.start <= inner.start < outer.end && inner.end < outer.end
  }

  /** What sorting the cache gives. */
  ghost predicate Sorted(infos: seq<Info>) {
    forall i, j :: 0 <= i < j < |infos| ==> infos[i].start <= infos[j].start
  }

  /** Halving the part of the cache from `first` up to `last`. */
  function Search(infos: seq<Info>, addr: nat, first: nat, last: nat): (r: Option<Info>)
    requires first <= last <= |infos|
    ensures r.Some? ==> r.value in infos && Contains(r.value, addr)
    decreases last - first
  {
    if first == last then None
    else
      var current := first + (last - first) / 2;
      if addr < infos[current].start then Search(infos, addr, first, current)
      else if addr < infos[current].end then Some(infos[current])
      else Search(infos, addr, current + 1, last)
  }

  /** In a sorted cache with no function inside another, equal ranges allowed, the search finds
      a function whenever there is one. */
  lemma {:induction false} SearchFinds(infos: seq<Info>, addr: nat, first: nat, last: nat, k: nat)
    requires Sorted(infos) && first <= k < last <= |infos| && Contains(infos[k], addr)
    requires forall i :: 0 <= i < |infos| ==> !Inside(infos[i], infos[k])
    ensures Search(infos, addr, first, last).Some?
    decreases last - first
  {
    var current := first + (last - first) / 2;
    if addr < infos[current].start {
      SearchFinds(infos, addr, first, current, k);
    } else if addr >= infos[current].end {
      assert !Inside(infos[current], infos[k]);
      SearchFinds(infos, addr, current + 1, last, k);
    }
  }

  /** The search misses nothing in this cache. */
  ghost predicate Complete(cache: seq<Info>) {
    forall addr: nat, k :: 0 <= k < |cache| && Contains(cache[k], addr) ==> Search(cache, addr, 0, |cache|).Some?
  }

  /** Cached together, a function and one inside it: what lies behind the inner one is not found. */
  lemma InnerHides(inner: Info, outer: Info)
    requires Inside(inner, outer)
    ensures Sorted([outer, inner]) && !Complete([outer, inner])
  {
    var cache := [outer, inner];
    var addr := if inner.start < inner.end then inner.end else inner.start;
    assert Contains(cache[0], addr) && Search(cache, addr, 2, 2) == None;
    assert Search(cache, addr, 0, 2) == None;
  }

  /** The search is complete for whichever of these functions are cached, exactly when none of them
      is inside another. */
  lemma SearchCompleteExactly(infos: set<Info>)
    ensures (forall cache :: Sorted(cache) && (forall x :: x in cache ==> x in infos) ==> Complete(cache))
       <==> forall x, y :: x in infos && y in infos ==> !Inside(x, y)
  {
    if x, y :| x in infos && y in infos && Inside(x, y) {
      InnerHides(x, y);
    } else {
      forall cache, addr: nat, k | Sorted(cache) && (forall x :: x in cache ==> x in infos)
          && 0 <= k < |cache| && Contains(cache[k], addr)
        ensures Search(cache, addr, 0, |cache|).Some?
      {
        assert cache[k] in cache;
        assert forall i :: 0 <= i < |cache| ==> cache[i] in cache;
        SearchFinds(cache, addr, 0, |cache|, k);
      }
    }
  }

  /** Where functions overlap the answer can depend on what is cached: the scan stops at the first
      function of the table, the search at the one in the middle of the cache. */
  lemma OverlapDependsOnHistory(read: (nat, nat) -> Option<string>)
    ensures
      var table := Table([Some(Sym(true, true, 0, 10, 1)), Some(Sym(true, true, 5, 10, 2))], 100, 200, read);
      && table.Scan(7, 0) == Some(0)
      && Sorted([table.InfoAt(0), table.InfoAt(1)]) && table.Holds([table.InfoAt(0), table.InfoAt(1)], 2)
      && table.Found([table.InfoAt(0), table.InfoAt(1)], 2, 7) == Some(table.InfoAt(1))
      && table.InfoAt(0) != table.InfoAt(1)
  {
    var table := Table([Some(Sym(true, true, 0, 10, 1)), Some(Sym(true, true, 5, 10, 2))], 100, 200, read);
    assert table.Covers(0, 7);
    assert table.InfoAt(0) == Info(0, 10, 101) && table.InfoAt(1) == Info(5, 15, 102);
  }

  /** A function inside another makes the outer one disappear once both have been read. */
  lemma NestedIsLost(read: (nat, nat) -> Option<string>)
    ensures
      var table := Table([Some(Sym(true, true, 0, 100, 1)), Some(Sym(true, true, 10, 10, 2))], 100, 200, read);
      && table.Found([], 0, 50) == Some(table.InfoAt(0))
      && Sorted([table.InfoAt(0), table.InfoAt(1)]) && table.Holds([table.InfoAt(0), table.InfoAt(1)], 2)
      && table.Found([table.InfoAt(0), table.InfoAt(1)], 2, 50) == None
  {
    var table := Table([Some(Sym(true, true, 0, 100, 1)), Some(Sym(true, true, 10, 10, 2))], 100, 200, read);
    assert table.Covers(0, 50);
    var cache := [table.InfoAt(0), table.InfoAt(1)];
    assert cache == [Info(0, 100, 101), Info(10, 20, 102)];
    assert Search(cache, 50, 2, 2) == None;
    assert Search(cache, 50, 0, 2) == None;
  }

  lemma {:induction false} InsertSorts(x: Info, infos: seq<Info>)
    requires Sorted(infos)
    ensures Sorted(Insert(x, infos, Less))
  {
    if infos != [] && !Less(x, infos[0]) {
      var rest := Insert(x, infos[1..], Less);
      InsertSorts(x, infos[1..]);
      forall y | y in rest
        ensures infos[0].start <= y.start
      {
        InsertHas(x, infos[1..], Less, y);
      }
      assert forall i :: 0 <= i < |rest| ==> rest[i] in rest;
    }
  }

  lemma {:induction false} SortSorts(infos: seq<Info>)
    ensures Sorted(Sort(infos, Less))
  {
    if infos != [] {
      SortSorts(infos[1..]);
      InsertSorts(infos[0], Sort(infos[1..], Less));
    }
  }

  /** The table, its strings, and how the bytes of a string are read: `read(offset, max)`. */
  datatype Table = Table(entries: seq<Option<Sym>>, strOffset: nat, strEnd: nat, read: (nat, nat) -> Option<string>)
  {
    predicate IsFunction(i: nat)
      requires i < |entries|
    {
      entries[i].Some? && entries[i].value.defined && entries[i].value.function_
    }

    function InfoAt(i: nat): Info
      requires i < |entries| && IsFunction(i)
    {
      var sym := entries[i].value;
      Info(sym.value, (sym.value + sym.size) % TWO64, (strOffset + sym.name) % TWO64)
    }

    predicate Covers(i: nat, addr: nat)
      requires i < |entries|
    {
      IsFunction(i) && Contains(InfoAt(i), addr)
    }

    ghost predicate Readable() {
      forall i {:trigger entries[i]} :: 0 <= i < |entries| ==> entries[i].Some?
    }

    /** Functions are not empty and their names are inside the string table. */
    ghost predicate Named() {
      && strEnd < TWO64
      && forall i: nat {:trigger InfoAt(i)} :: i < |entries| && IsFunction(i) ==>
           InfoAt(i).start < InfoAt(i).end && InfoAt(i).str < strEnd
    }

    ghost predicate NoneInside() {
      forall i: nat, j: nat {:trigger InfoAt(i), InfoAt(j)} ::
        i < |entries| && j < |entries| && IsFunction(i) && IsFunction(j) ==> !Inside(InfoAt(i), InfoAt(j))
    }

    /** Functions do not overlap, unless they have the same range. */
    ghost predicate ApartOrAlike() {
      forall i: nat, j: nat {:trigger InfoAt(i), InfoAt(j)} ::
        i < |entries| && j < |entries| && IsFunction(i) && IsFunction(j) ==>
          Apart(InfoAt(i), InfoAt(j)) || SameRange(InfoAt(i), InfoAt(j))
    }

    /** No two functions overlap, not even with the same range. */
    ghost predicate AllApart() {
      forall i: nat, j: nat {:trigger InfoAt(i), InfoAt(j)} ::
        i < j < |entries| && IsFunction(i) && IsFunction(j) ==> Apart(InfoAt(i), InfoAt(j))
    }

    ghost predicate WellFormed() {
      Readable() && Named() && AllApart()
    }

    /** The first function from entry `i` on that covers the address. */
    function Scan(addr: nat, i: nat): (r: Option<nat>)
      requires i <= |entries|
      ensures r.Some? ==> i <= r.value < |entries| && Covers(r.value, addr)
      decreases |entries| - i
    {
      if i == |entries| then None else if Covers(i, addr) then Some(i) else Scan(addr, i + 1)
    }

    function NameAt(info: Info, addr: nat): Option<Name>
      requires Contains(info, addr)
    {
      match read(info.str, (strEnd - info.str) % TWO64)
      case None => None
      case Some(name) => Some(Name(name, addr - info.start))
    }

    /** A linear scan of the whole table. */
    function Lookup(addr: nat): Option<Name> {
      match Scan(addr, 0)
      case None => None
      case Some(i) => NameAt(InfoAt(i), addr)
    }

    /** The function `GetName` finds when the first `n` entries have been read into the cache: what
        the search finds there, or else the first later one that covers the address. */
    function Found(cache: seq<Info>, n: nat, addr: nat): (r: Option<Info>)
      requires n <= |entries|
      ensures r.Some? ==> Contains(r.value, addr)
    {
      var hit := Search(cache, addr, 0, |cache|);
      if hit.Some? then hit
      else
        match Scan(addr, n)
        case None => None
        case Some(i) => Some(InfoAt(i))
    }

    /** The name of the first function from entry `n` on, which must be in the string table. */
    function NextName(addr: nat, n: nat): Option<Name>
      requires n <= |entries|
    {
      match Scan(addr, n)
      case None => None
      case Some(i) => if InfoAt(i).str < strEnd then NameAt(InfoAt(i), addr) else None
    }

    /** The name of what is found. Only a function that has just been read is asked whether its name
        is in the string table. */
    function Answer(cache: seq<Info>, n: nat, addr: nat): Option<Name>
      requires n <= |entries|
    {
      var hit := Search(cache, addr, 0, |cache|);
      if hit.Some? then NameAt(hit.value, addr) else NextName(addr, n)
    }

    lemma {:induction false} ScanFinds(addr: nat, i: nat, k: nat)
      requires i <= k < |entries| && Covers(k, addr) && forall j: nat :: i <= j < k ==> !Covers(j, addr)
      ensures Scan(addr, i) == Some(k)
      decreases k - i
    {
      if i < k {
        ScanFinds(addr, i + 1, k);
      }
    }

    lemma {:induction false} ScanMisses(addr: nat, i: nat)
      requires i <= |entries| && forall j: nat :: i <= j < |entries| ==> !Covers(j, addr)
      ensures Scan(addr, i) == None
      decreases |entries| - i
    {
      if i < |entries| {
        ScanMisses(addr, i + 1);
      }
    }

    lemma {:induction false} ScanExists(addr: nat, i: nat, k: nat)
      requires i <= k < |entries| && Covers(k, addr)
      ensures Scan(addr, i).Some?
      decreases k - i
    {
      if i < k && !Covers(i, addr) {
        ScanExists(addr, i + 1, k);
      }
    }

    /** The functions among the first `n` entries are the ones in the cache. */
    ghost predicate Holds(infos: seq<Info>, n: nat)
      requires n <= |entries|
    {
      && (forall x :: x in infos ==> exists i: nat {:trigger InfoAt(i)} :: i < n && IsFunction(i) && InfoAt(i) == x)
      && (forall i: nat {:trigger InfoAt(i)} :: i < n && IsFunction(i) ==> InfoAt(i) in infos)
    }

    /** The first `n` entries have been read into the cache. */
    ghost predicate Cached(cache: seq<Info>, n: nat)
      requires n <= |entries|
    {
      Sorted(cache) && Holds(cache, n)
    }

    /** What is found is a function of the table. */
    lemma FoundIsFunction(cache: seq<Info>, n: nat, addr: nat) returns (i: nat)
      requires n <= |entries| && Holds(cache, n) && Found(cache, n, addr).Some?
      ensures i < |entries| && Covers(i, addr) && Found(cache, n, addr) == Some(InfoAt(i))
    {
      if Search(cache, addr, 0, |cache|).Some? {
        var x := Search(cache, addr, 0, |cache|).value;
        i :| i < n && IsFunction(i) && InfoAt(i) == x;
      } else {
        i := Scan(addr, n).value;
      }
    }

    /** Where no function is inside another, a function is found after every history exactly when
        the table has one. */
    lemma FoundExactly(cache: seq<Info>, n: nat, addr: nat)
      requires n <= |entries| && Cached(cache, n) && NoneInside()
      ensures Found(cache, n, addr).Some? <==> Scan(addr, 0).Some?
    {
      if Found(cache, n, addr).Some? {
        var i := FoundIsFunction(cache, n, addr);
        ScanExists(addr, 0, i);
      } else if Scan(addr, 0).Some? {
        var i := Scan(addr, 0).value;
        if i < n {
          CachedIsFound(cache, n, addr, i);
        } else {
          ScanExists(addr, n, i);
        }
      }
    }

    lemma CachedIsFound(cache: seq<Info>, n: nat, addr: nat, i: nat)
      requires n <= |entries| && Cached(cache, n) && NoneInside() && i < n && Covers(i, addr)
      ensures Search(cache, addr, 0, |cache|).Some?
    {
      var k :| 0 <= k < |cache| && cache[k] == InfoAt(i);
      forall j | 0 <= j < |cache|
        ensures !Inside(cache[j], cache[k])
      {
        assert cache[j] in cache;
        var m: nat :| m < n && IsFunction(m) && InfoAt(m) == cache[j];
      }
      SearchFinds(cache, addr, 0, |cache|, k);
    }

    /** Where functions overlap only with the same range, what is found has the range of what a scan
        of the whole table finds. */
    lemma FoundIsAlike(cache: seq<Info>, n: nat, addr: nat)
      requires n <= |entries| && Cached(cache, n) && ApartOrAlike()
      requires forall i: nat {:trigger InfoAt(i)} :: i < |entries| && IsFunction(i) ==> InfoAt(i).start < InfoAt(i).end
      ensures Found(cache, n, addr).Some? <==> Scan(addr, 0).Some?
      ensures Scan(addr, 0).Some? ==> SameRange(Found(cache, n, addr).value, InfoAt(Scan(addr, 0).value))
    {
      FoundExactly(cache, n, addr);
      if Scan(addr, 0).Some? {
        var i := FoundIsFunction(cache, n, addr);
        assert !Apart(InfoAt(i), InfoAt(Scan(addr, 0).value));
      }
    }

    /** In a well-formed table there is only one function to find, so the answer is that of a scan. */
    lemma AnswerIsLookup(cache: seq<Info>, n: nat, addr: nat)
      requires n <= |entries| && Cached(cache, n) && WellFormed()
      ensures Answer(cache, n, addr) == Lookup(addr)
    {
      assert ApartOrAlike();
      FoundIsAlike(cache, n, addr);
      if Scan(addr, 0).Some? {
        var i := FoundIsFunction(cache, n, addr);
        var k := Scan(addr, 0).value;
        assert !Apart(InfoAt(i), InfoAt(k)) && !Apart(InfoAt(k), InfoAt(i));
      }
    }

    /** The functions from entry `i` up to `j`. */
    function Functions(i: nat, j: nat): seq<Info>
      requires i <= j <= |entries|
    {
      if i == j then []
      else Functions(i, j - 1) + if IsFunction(j - 1) then [InfoAt(j - 1)] else []
    }

    lemma {:induction false} HoldsMore(infos: seq<Info>, i: nat, j: nat)
      requires i <= j <= |entries| && Holds(infos, i)
      ensures Holds(infos + Functions(i, j), j)
      decreases j - i
    {
      if i == j {
        assert infos + Functions(i, j) == infos;
      } else {
        HoldsMore(infos, i, j - 1);
        assert infos + Functions(i, j) ==
               infos + Functions(i, j - 1) + if IsFunction(j - 1) then [InfoAt(j - 1)] else [];
      }
    }

    /** The first entry from `i` on that covers the address is the last one read. */
    function NextCur(addr: nat, i: nat): nat
      requires i <= |entries|
    {
      match Scan(addr, i)
      case None => |entries|
      case Some(k) => k + 1
    }
  }

  class Symbols {
    const table: Table
    var cur: nat
    var symbols: seq<Info>

    /** While nothing unreadable has been met, the cache holds the functions read so far in order. */
    ghost predicate Valid()
      reads this
    {
      cur <= |table.entries| && (table.Readable() ==> table.Cached(symbols, cur))
    }

    constructor (table: Table)
      ensures Valid() && this.table == table && symbols == [] && cur == 0
    {
      this.table, cur, symbols := table, 0, [];
    }

    method ClearCache()
      modifies this
      ensures Valid() && symbols == [] && cur == 0
    {
      symbols, cur := [], 0;
    }

    /** Binary search of the functions seen so far. */
    method GetInfoFromCache(addr: nat) returns (r: Option<Info>)
      ensures r == Search(symbols, addr, 0, |symbols|)
    {
      var first, last := 0, |symbols|;
      while first < last
        invariant 0 <= first <= last <= |symbols|
        invariant Search(symbols, addr, first, last) == Search(symbols, addr, 0, |symbols|)
      {
        var current := first + (last - first) / 2;
        var info := symbols[current];
        if addr < info.start {
          last := current;
        } else if addr < info.end {
          return Some(info);
        } else {
          first := current + 1;
        }
      }
      return None;
    }

    /** Reads on in the table until a function covers the address. An entry that cannot be read
        ends all reading. */
    method ReadOn(addr: nat) returns (r: Option<Name>, added: bool, readable: bool)
      requires cur <= |table.entries|
      modifies this
      ensures cur <= |table.entries| && (table.Readable() ==> readable)
      ensures readable ==>
        && cur == table.NextCur(addr, old(cur)) && old(cur) <= cur
        && symbols == old(symbols) + table.Functions(old(cur), cur) && (added || symbols == old(symbols))
        && r == table.NextName(addr, old(cur))
    {
      r, added := None, false;
      while cur < |table.entries|
        invariant old(cur) <= cur <= |table.entries|
        invariant symbols == old(symbols) + table.Functions(old(cur), cur) && (added || symbols == old(symbols))
        invariant table.Scan(addr, old(cur)) == table.Scan(addr, cur)
      {
        if table.entries[cur].None? {
          cur := |table.entries|;
          return None, added, false;
        }
        if !table.IsFunction(cur) {
          cur := cur + 1;
          continue;
        }
        var info := table.InfoAt(cur);
        symbols, added := symbols + [info], true;
        cur := cur + 1;
        if Contains(info, addr) {
          if info.str < table.strEnd {
            r := table.NameAt(info, addr);
          }
          return r, added, true;
        }
      }
      readable := true;
    }

    /** Reads on after a miss and sorts what was added. */
    method ReadAndSort(addr: nat) returns (r: Option<Name>)
      requires Valid()
      modifies this
      ensures Valid()
      ensures table.Readable() ==> r == table.NextName(addr, old(cur)) && cur == table.NextCur(addr, old(cur))
    {
      var added, readable;
      r, added, readable := ReadOn(addr);
      if table.Readable() {
        ReadKeeps(old(symbols), old(cur), cur);
      }
      if readable && added {
        symbols := Sort(symbols, Less);
      }
    }

    /** Whatever was looked up before: the answer is the function the search finds among those read
        so far, or else the first later one; in a well-formed table, that of a scan. */
    method GetName(addr: nat) returns (r: Option<Name>)
      requires Valid()
      modifies this
      ensures Valid()
      ensures table.Readable() ==> r == table.Answer(old(symbols), old(cur), addr)
      ensures table.Readable() ==>
        cur == if Search(old(symbols), addr, 0, |old(symbols)|).Some? then old(cur) else table.NextCur(addr, old(cur))
      ensures table.WellFormed() ==> r == table.Lookup(addr)
    {
      if table.WellFormed() {
        table.AnswerIsLookup(symbols, cur, addr);
      }
      if symbols != [] {
        var info := GetInfoFromCache(addr);
        if info.Some? {
          return table.NameAt(info.value, addr);
        }
      }
      r := ReadAndSort(addr);
    }

    lemma ReadKeeps(cache: seq<Info>, n: nat, n': nat)
      requires n <= n' <= |table.entries| && table.Cached(cache, n)
      ensures
        var infos := cache + table.Functions(n, n');
        table.Cached(Sort(infos, Less), n') && (infos == cache ==> table.Cached(cache, n'))
    {
      var infos := cache + table.Functions(n, n');
      table.HoldsMore(cache, n, n');
      SortSorts(infos);
      forall x
        ensures x in Sort(infos, Less) <==> x in infos
      {
        SortHas(infos, Less, x);
      }
    }
  }
}
