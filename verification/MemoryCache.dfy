/**
 The page cache of Memory.cpp, `MemoryCache::Read`, over a memory that does not change. The
 cached memory's own `Read` returns the longest readable prefix and never goes past 2^64.
 */
module MemoryCache {
  import opened Basics
  import opened DwarfMemory

  const PAGE: nat := 4096

  /** The uncached read. */
  function ReadPrefix(memory: Memory, addr: nat, size: nat): (bytes: seq<byte>)
    ensures |bytes| <= size
    decreases size, memory
  {
    if size == 0 || addr !in memory then [] else [memory[addr]] + ReadPrefix(memory, addr + 1, size - 1)
  }

  ghost predicate Bounded(memory: Memory) {
    forall a :: a in memory ==> a < TWO64
  }

  lemma {:induction false} FullyIsPrefix(memory: Memory, addr: nat, size: nat)
    ensures ReadFully(memory, addr, size) ==
      if |ReadPrefix(memory, addr, size)| == size then Some(ReadPrefix(memory, addr, size)) else None
    decreases size
  {
    if size > 0 && addr in memory {
      FullyIsPrefix(memory, addr + 1, size - 1);
    }
  }

  /** Reading on where a read has got everything it wanted. */
  lemma {:induction false} PrefixSplits(memory: Memory, addr: nat, first: nat, second: nat)
    requires |ReadPrefix(memory, addr, first)| == first
    ensures ReadPrefix(memory, addr, first + second) ==
      ReadPrefix(memory, addr, first) + ReadPrefix(memory, addr + first, second)
    decreases first
  {
    if first > 0 {
      PrefixSplits(memory, addr + 1, first - 1, second);
    }
  }

  /** A part of a readable stretch is read off it. */
  lemma PrefixWithin(memory: Memory, addr: nat, size: nat, from: nat, n: nat)
    requires |ReadPrefix(memory, addr, size)| == size && from + n <= size
    ensures ReadPrefix(memory, addr + from, n) == ReadPrefix(memory, addr, size)[from..from + n]
  {
    FullPart(memory, addr, from, size - from);
    PrefixSplits(memory, addr, from, size - from);
    FullPart(memory, addr + from, n, size - from - n);
    PrefixSplits(memory, addr + from, n, size - from - n);
  }

  lemma {:induction false} FullPart(memory: Memory, addr: nat, first: nat, second: nat)
    requires |ReadPrefix(memory, addr, first + second)| == first + second
    ensures |ReadPrefix(memory, addr, first)| == first
    decreases first
  {
    if first > 0 {
      FullPart(memory, addr + 1, first - 1, second);
    }
  }

  /** The page that a read starts in can be cached. */
  predicate PageReadable(memory: Memory, addr: nat) {
    |ReadPrefix(memory, addr / PAGE * PAGE, PAGE)| == PAGE
  }

  /** A small read goes past 2^64 from a readable page: the code goes on reading at 0. */
  predicate Wraps(memory: Memory, addr: nat, size: nat) {
    size <= 64 && addr + size > TWO64 && PageReadable(memory, addr)
  }

  /** What the cache returns, in terms of the memory alone. */
  function CachedRead(memory: Memory, addr: nat, size: nat): seq<byte> {
    ReadPrefix(memory, addr, size) +
    if Wraps(memory, addr, size) then ReadPrefix(memory, 0, addr + size - TWO64) else []
  }

  /** The cache agrees with the memory exactly when the read does not run from the last page
      over 2^64 into a readable byte at address 0. */
  lemma CacheAgreesExactly(memory: Memory, addr: nat, size: nat)
    ensures CachedRead(memory, addr, size) == ReadPrefix(memory, addr, size) <==>
            !(Wraps(memory, addr, size) && 0 in memory)
  {
    if Wraps(memory, addr, size) {
      assert ReadPrefix(memory, 0, addr + size - TWO64) == [] <==> 0 !in memory;
    }
  }

  lemma {:induction false} MappedIsReadable(memory: Memory, addr: nat, size: nat)
    requires forall a :: addr <= a < addr + size ==> a in memory
    ensures |ReadPrefix(memory, addr, size)| == size
    decreases size
  {
    if size > 0 {
      MappedIsReadable(memory, addr + 1, size - 1);
    }
  }

  /** With the last page and the byte at 0 mapped, a read of two bytes at the last address gets
      one of them from address 0. */
  lemma ReadPastTheEndDiffers(memory: Memory)
    requires Bounded(memory) && 0 in memory && forall a :: TWO64 - PAGE <= a < TWO64 ==> a in memory
    ensures |ReadPrefix(memory, TWO64 - 1, 2)| == 1 && |CachedRead(memory, TWO64 - 1, 2)| == 2
  {
    MappedIsReadable(memory, TWO64 - PAGE, PAGE);
    assert (TWO64 - 1) / PAGE * PAGE == TWO64 - PAGE;
    assert ReadPrefix(memory, TWO64, 1) == [];
    assert ReadPrefix(memory, 0, 1) == [memory[0]] + ReadPrefix(memory, 1, 0);
  }

  /** A read from a page that starts at `base`, with `next` where the code looks for the page
      after it. */
  function ReadFromPage(memory: Memory, base: nat, offset: nat, next: nat, size: nat): seq<byte>
    requires offset < PAGE
  {
    if offset + size <= PAGE then ReadPrefix(memory, base + offset, size)
    else ReadPrefix(memory, base + offset, PAGE - offset) + ReadPrefix(memory, next, offset + size - PAGE)
  }

  function Base(p: nat): nat {
    p * PAGE % TWO64
  }

  /** The page after the last one is looked for at 0. */
  lemma PageBounds(addr: nat)
    requires addr < TWO64
    ensures var base := addr / PAGE * PAGE;
      && base + addr % PAGE == addr && Base(addr / PAGE) == base
      && (base + PAGE == TWO64 || base + 2 * PAGE <= TWO64)
      && Base(addr / PAGE + 1) == if base + PAGE < TWO64 then base + PAGE else 0
  {
  }

  lemma PageReadGoesOn(memory: Memory, base: nat, offset: nat, next: nat, size: nat)
    requires Bounded(memory) && |ReadPrefix(memory, base, PAGE)| == PAGE && offset < PAGE
    requires size <= PAGE && (base + PAGE == TWO64 || base + 2 * PAGE <= TWO64)
    requires next == if base + PAGE < TWO64 then base + PAGE else 0
    ensures ReadFromPage(memory, base, offset, next, size) ==
      ReadPrefix(memory, base + offset, size) +
      if base + offset + size > TWO64 then ReadPrefix(memory, 0, base + offset + size - TWO64) else []
  {
    if offset + size > PAGE {
      PrefixWithin(memory, base, PAGE, offset, PAGE - offset);
      PrefixSplits(memory, base + offset, PAGE - offset, offset + size - PAGE);
      assert base + offset + (PAGE - offset) == base + PAGE;
    }
  }

  lemma ReadFromPageIsCachedRead(memory: Memory, addr: nat, size: nat)
    requires Bounded(memory) && PageReadable(memory, addr) && addr < TWO64 && size <= 64
    ensures Base(addr / PAGE) == addr / PAGE * PAGE
    ensures CachedRead(memory, addr, size) ==
      ReadFromPage(memory, Base(addr / PAGE), addr % PAGE, Base(addr / PAGE + 1), size)
  {
    PageBounds(addr);
    PageReadGoesOn(memory, Base(addr / PAGE), addr % PAGE, Base(addr / PAGE + 1), size);
  }

  class Cache {
    const memory: Memory
    var pages: map<nat, seq<byte>>

    /** Every cached page holds the bytes of the memory, and all of them. */
    ghost predicate Valid()
      reads this
    {
      && Bounded(memory)
      && forall p :: p in pages ==> |pages[p]| == PAGE && pages[p] == ReadPrefix(memory, Base(p), PAGE)
    }

    constructor (memory: Memory)
      requires Bounded(memory)
      ensures Valid() && this.memory == memory && pages == map[]
    {
      this.memory := memory;
      pages := map[];
    }

    method Clear()
      requires Valid()
      modifies this
      ensures Valid() && pages == map[]
    {
      pages := map[];
    }

    /** The page's bytes, read into the cache if need be. */
    method GetPage(p: nat) returns (page: Option<seq<byte>>)
      requires Valid()
      modifies this
      ensures Valid()
      ensures var bytes := ReadPrefix(memory, Base(p), PAGE);
        page == if |bytes| == PAGE then Some(bytes) else None
    {
      if p in pages {
        return Some(pages[p]);
      }
      FullyIsPrefix(memory, Base(p), PAGE);
      page := ReadFully(memory, Base(p), PAGE);
      if page.Some? {
        pages := pages[p := page.value];
      }
    }

    method CopyTo(dst: array<byte>, offset: nat, bytes: seq<byte>)
      requires offset + |bytes| <= dst.Length
      modifies dst
      ensures forall i :: 0 <= i < dst.Length ==>
        dst[i] == if offset <= i < offset + |bytes| then bytes[i - offset] else old(dst[i])
    {
      forall i | 0 <= i < |bytes| {
        dst[offset + i] := bytes[i];
      }
    }

    method CopyBoth(dst: array<byte>, first: seq<byte>, second: seq<byte>)
      requires |first| + |second| <= dst.Length
      modifies dst
      ensures dst[..] == first + second + old(dst[|first| + |second|..])
    {
      CopyTo(dst, 0, first);
      CopyTo(dst, |first|, second);
    }

    /** The first bytes of page `p`. */
    method ReadStart(p: nat, size: nat) returns (bytes: seq<byte>)
      requires Valid() && size <= 64
      modifies this
      ensures Valid() && bytes == ReadPrefix(memory, Base(p), size)
    {
      var page := GetPage(p);
      if page.Some? {
        PrefixWithin(memory, Base(p), PAGE, 0, size);
        bytes := page.value[..size];
      } else {
        bytes := ReadPrefix(memory, Base(p), size);
      }
    }

    /** A read that starts in page `p`, whose bytes are `page`. */
    method ReadCached(p: nat, page: seq<byte>, offset: nat, dst: array<byte>, size: nat) returns (count: nat)
      requires Valid() && page == ReadPrefix(memory, Base(p), PAGE) && |page| == PAGE
      requires offset < PAGE && size <= 64 && size <= dst.Length
      modifies this, dst
      ensures Valid()
      ensures var bytes := ReadFromPage(memory, Base(p), offset, Base(p + 1), size);
        count == |bytes| && dst[..] == bytes + old(dst[count..])
    {
      var maxRead := PAGE - offset;
      if size <= maxRead {
        PrefixWithin(memory, Base(p), PAGE, offset, size);
        CopyTo(dst, 0, page[offset..offset + size]);
        return size;
      }
      PrefixWithin(memory, Base(p), PAGE, offset, maxRead);
      assert page[offset..] == page[offset..offset + maxRead];
      var rest := ReadStart(p + 1, size - maxRead);
      CopyBoth(dst, page[offset..], rest);
      return maxRead + |rest|;
    }

    /** Whatever was read or cleared before, the bytes read depend on the memory alone. */
    method Read(addr: nat, dst: array<byte>, size: nat) returns (count: nat)
      requires Valid() && addr < TWO64 && size <= dst.Length
      modifies this, dst
      ensures Valid()
      ensures count == |CachedRead(memory, addr, size)| <= size
      ensures dst[..] == CachedRead(memory, addr, size) + old(dst[count..])
    {
      if size <= 64 {
        var page := GetPage(addr / PAGE);
        if page.Some? {
          ReadFromPageIsCachedRead(memory, addr, size);
          count := ReadCached(addr / PAGE, page.value, addr % PAGE, dst, size);
          return;
        }
      }
      var bytes := ReadPrefix(memory, addr, size);
      CopyTo(dst, 0, bytes);
      count := |bytes|;
    }
  }
}
