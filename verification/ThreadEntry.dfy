/**
 The reference-counted list of ThreadEntry.cpp: a doubly linked list through the entries
 themselves, whose head is `list_`. Every call runs with `list_mutex_` held.
 */
module ThreadEntry {

  class Entry {
    const pid: int
    const tid: int
    var refCount: int
    var next: Entry?
    var prev: Entry?

    constructor (pid: int, tid: int, next: Entry?)
      ensures this.pid == pid && this.tid == tid && refCount == 1 && this.next == next && prev == null
    {
      this.pid, this.tid, refCount, this.next, prev := pid, tid, 1, next, null;
    }

    predicate Match(pid: int, tid: int) {
      this.pid == pid && this.tid == tid
    }
  }

  /** What callers have done with entries. */
  datatype Op = Got(entry: Entry) | Removed(entry: Entry)

  /** How many references callers hold on `e`. */
  ghost function Balance(log: seq<Op>, e: Entry): int {
    if log == [] then 0
    else
      var op := log[|log| - 1];
      Balance(log[..|log| - 1], e) + if op == Got(e) then 1 else if op == Removed(e) then -1 else 0
  }

  lemma BalanceStep(log: seq<Op>, op: Op, e: Entry)
    ensures Balance(log + [op], e) == Balance(log, e) + if op == Got(e) then 1 else if op == Removed(e) then -1 else 0
  {
    assert (log + [op])[..|log|] == log;
  }

  lemma {:induction false} UnknownHasNoBalance(log: seq<Op>, e: Entry)
    requires forall op :: op in log ==> op.entry != e
    ensures Balance(log, e) == 0
  {
    if log != [] {
      UnknownHasNoBalance(log[..|log| - 1], e);
    }
  }

  /** The entries form a chain from the head, each but the first pointing back to the one before
      it. The head's own `prev` may be anything: removing the head leaves it stale. */
  ghost predicate Chain(list: Entry?, entries: seq<Entry>)
    reads entries
  {
    && (list == if entries == [] then null else entries[0])
    && (entries != [] ==> entries[|entries| - 1].next == null)
    && (forall i, j :: 0 <= i < j == i + 1 < |entries| ==>
          entries[i].next == entries[j] && entries[j].prev == entries[i])
  }

  ghost predicate Distinct(entries: seq<Entry>) {
    forall i, j :: 0 <= i < |entries| && 0 <= j < |entries| && i != j ==>
      entries[i] != entries[j] && !entries[i].Match(entries[j].pid, entries[j].tid)
  }

  lemma ChainCons(entry: Entry, entries: seq<Entry>)
    requires Chain(entry.next, entries) && (entries != [] ==> entries[0].prev == entry)
    ensures Chain(entry, [entry] + entries)
  {
    var all := [entry] + entries;
    forall i, j | 0 <= i < j == i + 1 < |all|
      ensures all[i].next == all[j] && all[j].prev == all[i]
    {
      if i > 0 {
        assert all[i] == entries[i - 1] && all[j] == entries[j - 1];
      }
    }
  }

  lemma DistinctCons(entry: Entry, entries: seq<Entry>)
    requires Distinct(entries) && forall e :: e in entries ==> e != entry && !e.Match(entry.pid, entry.tid)
    ensures Distinct([entry] + entries)
  {
    var all := [entry] + entries;
    assert forall i :: 0 < i < |all| ==> all[i] == entries[i - 1] && all[i] in entries;
  }

  ghost function Without(entries: seq<Entry>, i: nat): seq<Entry>
    requires i < |entries|
  {
    entries[..i] + entries[i + 1..]
  }

  lemma DistinctWithout(entries: seq<Entry>, i: nat)
    requires i < |entries| && Distinct(entries)
    ensures Distinct(Without(entries, i)) && entries[i] !in Without(entries, i)
    ensures forall e :: e in entries && e != entries[i] ==> e in Without(entries, i)
  {
    var rest := Without(entries, i);
    assert forall k :: 0 <= k < |rest| ==> rest[k] == entries[if k < i then k else k + 1];
    forall e | e in entries && e != entries[i]
      ensures e in rest
    {
      var k :| 0 <= k < |entries| && entries[k] == e;
      assert e == rest[if k < i then k else k - 1];
    }
  }

  /** Each live entry's count is its balance, and everything else has been given back. */
  ghost predicate Counted(entries: seq<Entry>, log: seq<Op>)
    reads entries
  {
    && (forall e :: e in entries ==> e.refCount == Balance(log, e) >= 1)
    && (forall op :: op in log && op.entry !in entries ==> Balance(log, op.entry) == 0)
  }

  class EntryList {
    var list: Entry?
    ghost var entries: seq<Entry>
    ghost var log: seq<Op>

    /** The chain holds exactly the entries callers have references on, one for a thread, and
        each count is the number of Gets minus the number of Removes. */
    ghost predicate Valid()
      reads this, entries
    {
      Chain(list, entries) && Distinct(entries) && Counted(entries, log)
    }

    constructor ()
      ensures Valid() && entries == [] && log == []
    {
      list, entries, log := null, [], [];
    }

    /** The entry of a thread, with one more reference; a new one at the head if there is none
        and the caller wants one. */
    method Get(pid: int, tid: int, create: bool) returns (entry: Entry?)
      requires Valid()
      modifies this, entries
      ensures Valid()
      ensures entry == null <==> !create && forall e :: e in old(entries) ==> !e.Match(pid, tid)
      ensures entry != null ==> entry.Match(pid, tid) && log == old(log) + [Got(entry)]
      ensures entry == null ==> entries == old(entries) && log == old(log)
      ensures entry != null && entry in old(entries) ==> entries == old(entries)
      ensures entry != null && entry !in old(entries) ==> fresh(entry) && entries == [entry] + old(entries)
      ensures forall e :: e in old(entries) && e != entry ==> e.refCount == old(e.refCount)
    {
      entry := list;
      ghost var i := 0;
      while entry != null && !entry.Match(pid, tid)
        invariant 0 <= i <= |entries|
        invariant entry == if i < |entries| then entries[i] else null
        invariant forall j :: 0 <= j < i ==> !entries[j].Match(pid, tid)
        decreases |entries| - i
      {
        entry := entry.next;
        i := i + 1;
      }
      if entry == null {
        if create {
          entry := Insert(pid, tid);
        }
      } else {
        entry.refCount := entry.refCount + 1;
        log := log + [Got(entry)];
        forall e
          ensures Balance(log, e) == Balance(old(log), e) + if e == entry then 1 else 0
        {
          BalanceStep(old(log), Got(entry), e);
        }
      }
    }

    /** A new entry links itself in at the head. */
    method Insert(pid: int, tid: int) returns (entry: Entry)
      requires Valid() && forall e :: e in entries ==> !e.Match(pid, tid)
      modifies this, entries
      ensures Valid() && fresh(entry) && entry.Match(pid, tid)
      ensures entries == [entry] + old(entries) && log == old(log) + [Got(entry)]
      ensures forall e :: e in old(entries) ==> e.refCount == old(e.refCount)
    {
      entry := new Entry(pid, tid, list);
      if list != null {
        list.prev := entry;
      }
      list := entry;
      entries := [entry] + entries;
      ChainCons(entry, old(entries));
      DistinctCons(entry, old(entries));
      log := log + [Got(entry)];
      UnknownHasNoBalance(old(log), entry);
      forall e
        ensures Balance(log, e) == Balance(old(log), e) + if e == entry then 1 else 0
      {
        BalanceStep(old(log), Got(entry), e);
      }
    }

    /** One reference less; the entry leaves the chain with its last one. */
    method Remove(entry: Entry)
      requires Valid() && entry in entries
      modifies this, entries
      ensures Valid() && log == old(log) + [Removed(entry)]
      ensures old(entry.refCount) > 1 ==> entries == old(entries) && entry.refCount == old(entry.refCount) - 1
      ensures old(entry.refCount) == 1 ==>
        exists i :: 0 <= i < |old(entries)| && old(entries)[i] == entry && entries == Without(old(entries), i)
      ensures forall e :: e in old(entries) && e != entry ==> e in entries && e.refCount == old(e.refCount)
    {
      entry.refCount := entry.refCount - 1;
      log := log + [Removed(entry)];
      forall e
        ensures Balance(log, e) == Balance(old(log), e) - if e == entry then 1 else 0
      {
        BalanceStep(old(log), Removed(entry), e);
      }
      if entry.refCount == 0 {
        Unlink(entry);
      }
    }

    method Unlink(entry: Entry)
      requires Chain(list, entries) && Distinct(entries) && entry in entries
      modifies this`list, this`entries, entries`next, entries`prev
      ensures Chain(list, entries) && Distinct(entries) && entry !in entries
      ensures exists i :: 0 <= i < |old(entries)| && old(entries)[i] == entry && entries == Without(old(entries), i)
    {
      ghost var i :| 0 <= i < |entries| && entries[i] == entry;
      assert i > 0 ==> entry.prev == entries[i - 1];
      assert entry.next == if i + 1 < |entries| then entries[i + 1] else null;
      if list == entry {
        list := entry.next;
      } else {
        if entry.next != null {
          entry.next.prev := entry.prev;
        }
        entry.prev.next := entry.next;
      }
      entry.next, entry.prev := null, null;
      entries := Without(entries, i);
      DistinctWithout(old(entries), i);
      ghost var before := old(entries);
      assert forall k :: 0 <= k < |entries| ==> entries[k] == before[if k < i then k else k + 1];
      forall j, k | 0 <= j < k == j + 1 < |entries|
        ensures entries[j].next == entries[k] && entries[k].prev == entries[j]
      {
        assert j + 1 != i ==> old(before[if j < i then j else j + 1].next) == before[if k < i then k else k + 1];
      }
    }
  }
}
