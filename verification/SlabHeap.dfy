/**
 The allocator of kernel/slab.cpp with its global variables as fields.  Each method is proved equal to
 the step of the state machine it implements.
 */
module SlabHeap {
  import opened Pages
  import opened SizeClass
  import opened Slab
  import opened SlabInv
  import opened SlabRun

  class Heap {
    const c: Config
    const pages: PageList
    var zones: map<int, Zone>
    var ary: seq<seq<int>>
    var cache: seq<int>
    var cacheCount: int
    var usage: map<int, Usage>
    var used: int
    var peak: int
    ghost var live: map<int, Block>
    ghost var own: map<int, Owner>

    ghost function Abs(): State
      reads this, pages
    {
      State(pages.list, zones, ary, cache, usage, used, peak, live, own)
    }

    ghost predicate Valid()
      reads this, pages
    {
      Inv(c, Abs()) && cacheCount == |cache|
    }

    /** system_heap_init for `n` pages from page `start` on; `memory` is what the usage table holds at that time. */
    constructor (start: int, n: int, memory: map<int, Usage>)
      requires start > 0 && n > 0 && start + n <= 0x10_0000 && memory.Keys == Span(start, n)
      ensures Valid() && fresh(pages)
      ensures Abs() == Fresh(c, memory)
      ensures c == HeapConfig(start, n)
    {
      hide Inv, Take, Fresh, FreshOwners, AlignUp, Span;
      var l := new PageList(start, n);
      var zoneSize := ZoneSize(n * PAGE_SIZE);
      TableRoom(n);
      var tablePages := AlignUp(n * 4, PAGE_SIZE) / PAGE_SIZE;
      TakeFirst(start, n, tablePages);
      var table := l.PageAlloc(tablePages);
      var config := Config(start, n, zoneSize, table, tablePages);
      c, pages := config, l;
      zones, ary, cache, cacheCount := map[], seq(NZONES, i => []), [], 0;
      usage, used, peak := memory, 0, 0;
      live, own := map[], FreshOwners(config);
      new;
      FreshOk(c, memory);
      FreshIs(c, memory);
      assert Abs() == Fresh(c, memory);
    }

    method Account(bytes: int)
      modifies this`used, this`peak
      ensures Abs() == Peak(old(Abs()).(used := old(used) + bytes))
    {
      used := used + bytes;
      if used > peak { peak := used; }
    }

    method MallocPages(size: int) returns (ptr: int)
      requires Valid() && 0 < size < 0x1_0000_0000
      modifies this, pages
      ensures cacheCount == old(cacheCount) && cache == old(cache)
      ensures Outcome(Abs(), ptr) == MallocLarge(old(Abs()), size)
    {
      hide Inv, Take, LargeBytes, Marked;
      assert LargeBytes(size) >= 0 && LargeBytes(size) / PAGE_SIZE * PAGE_SIZE == LargeBytes(size)
          by { LargeBytesIs(size); }
      PageListOk(c, Abs());
      var bytes := LargeBytes(size);
      var n := bytes / PAGE_SIZE;
      ghost var s := Abs();
      var p := pages.PageAlloc(n);
      if p == 0 {
        return 0;
      }
      usage := usage[p := Usage(LARGE, n)];
      live := live[p * PAGE_SIZE := Large(size, n)];
      own := Marked(own, p, n, InBlock(p));
      Account(bytes);
      ptr := p * PAGE_SIZE;
      assert HoldLarge(s, size, n, p, pages.list)
          == s.(list := pages.list, usage := s.usage[p := Usage(LARGE, n)], used := s.used + bytes,
        live := s.live[p * PAGE_SIZE := Large(size, n)], own := Marked(s.own, p, n, InBlock(p)));
    }

    method MallocListed(size: int, zi: int, chunk: int) returns (ptr: int)
      requires 0 <= zi < |ary| && ary[zi] != [] && ary[zi][0] in zones
      requires zones[ary[zi][0]].uindex + 1 == zones[ary[zi][0]].nmax ==> zones[ary[zi][0]].chunks != []
      modifies this
      ensures cacheCount == old(cacheCount) && cache == old(cache)
      ensures Outcome(Abs(), ptr) == MallocZone(old(Abs()), size, zi, chunk)
    {
      var z := ary[zi][0];
      var zone := zones[z];
      zone := zone.(nfree := zone.nfree - 1);
      if zone.nfree == 0 {
        ary := ary[zi := ary[zi][1..]];
      }
      if zone.uindex + 1 != zone.nmax {
        zone := zone.(uindex := zone.uindex + 1);
        ptr := zone.base + zone.uindex * chunk;
      } else {
        ptr := zone.chunks[0];
        zone := zone.(chunks := zone.chunks[1..]);
      }
      zones := zones[z := zone];
      live := live[ptr := Small(size, z, zone.chunk)];
      Account(zone.chunk);
    }

    /** The usage entries of a new zone. */
    method MarkZone(z: int)
      requires forall p :: z <= p < z + c.ZonePages() ==> p in usage
      modifies this`usage
      ensures usage == SmallUsage(old(usage), z, c.ZonePages())
    {
      var off := 0;
      ghost var u := usage;
      while off < c.ZonePages()
        invariant 0 <= off && (off <= c.ZonePages() || off == 0)
        invariant usage.Keys == u.Keys
        invariant forall p :: p in u ==> usage[p] == if z <= p < z + off then Usage(SMALL, p - z) else u[p]
      {
        usage := usage[z + off := Usage(SMALL, off)];
        off := off + 1;
      }
    }

    method ClearZone(z: int)
      requires forall p :: z <= p < z + c.ZonePages() ==> p in usage
      modifies this`usage
      ensures usage == FreeUsage(old(usage), z, c.ZonePages())
    {
      var off := 0;
      ghost var u := usage;
      while off < c.ZonePages()
        invariant 0 <= off && (off <= c.ZonePages() || off == 0)
        invariant usage.Keys == u.Keys
        invariant forall p :: p in u ==> usage[p] == if z <= p < z + off then Usage(FREE, 0) else u[p]
      {
        usage := usage[z + off := Usage(FREE, 0)];
        off := off + 1;
      }
    }

    method MallocFresh(size: int, zi: int, chunk: int) returns (ptr: int)
      requires Valid() && chunk > 0 && 0 <= zi < |ary| && c.ZonePages() > 0
      modifies this, pages
      ensures old(cacheCount) == |old(cache)| ==> cacheCount == |cache|
      ensures Outcome(Abs(), ptr) == MallocNew(c, old(Abs()), size, zi, chunk)
    {
      hide Inv, Take, Marked, SmallUsage, OpenZone;
      var z;
      if cache != [] {
        z := cache[0];
        cache := cache[1..];
        cacheCount := cacheCount - 1;
      } else {
        PageListOk(c, Abs());
        TakenUsage(c, Abs());
        z := pages.PageAlloc(c.ZonePages());
        if z == 0 {
          return 0;
        }
        MarkZone(z);
        own := Marked(own, z, c.ZonePages(), InZone(z));
      }
      ptr := Open(z, size, zi, chunk);
    }

    /** Lay out zone `z` for chunks of size `chunk` and hand out the first. */
    method Open(z: int, size: int, zi: int, chunk: int) returns (ptr: int)
      requires chunk > 0 && 0 <= zi < |ary|
      modifies this
      ensures cacheCount == old(cacheCount) && cache == old(cache)
      ensures Outcome(Abs(), ptr) == OpenZone(c, old(Abs()), z, size, zi, chunk)
    {
      hide MaxChunks, Offset;
      var nmax := MaxChunks(c.zoneSize, chunk);
      var zone := Zone(nmax - 1, nmax, z * PAGE_SIZE + Offset(chunk), 0, chunk, zi, []);
      zones := zones[z := zone];
      ary := ary[zi := [z] + ary[zi]];
      ptr := zone.base;
      live := live[ptr := Small(size, z, chunk)];
      Account(chunk);
    }

    /** kmalloc */
    method Kmalloc(size: int) returns (ptr: int)
      requires Valid() && 0 <= size < 0x1_0000_0000
      modifies this, pages
      ensures Valid()
      ensures Outcome(Abs(), ptr) == Malloced(c, old(Abs()), size)
    {
      hide Inv, MallocLarge, MallocZone, MallocNew;
      ghost var s := Abs();
      MallocOk(c, s, size);
      if size == 0 {
        return 0;
      }
      assert c.Valid() by { InvCore(c, s); }
      if size >= LimitOf(c.zoneSize) {
        ptr := MallocPages(size);
        return;
      }
      ZoneIndexFits(size);
      var k := ZoneIndex(size);
      if ary[k.index] != [] {
        HeadHasChunk(c, s, k.index);
        ptr := MallocListed(size, k.index, k.chunk);
      } else {
        assert c.ZonePages() > 0 by { ZonePagesIs(c); }
        ptr := MallocFresh(size, k.index, k.chunk);
      }
    }

    /** Unlink `z` from the list of index `i`. */
    method Unlink(i: int, z: int)
      requires 0 <= i < |ary| && z in ary[i]
      modifies this`ary
      ensures ary == old(ary)[i := Without(old(ary)[i], z)]
    {
      hide Without;
      var l := ary[i];
      var k := 0;
      assert l[..0] + Without(l[0..], z) == Without(l, z);
      while l[k] != z
        invariant 0 <= k < |l| && z in l[k..] && ary == old(ary)
        invariant Without(l, z) == l[..k] + Without(l[k..], z)
        decreases |l| - k
      {
        WithoutSkip(l, k, z);
        k := k + 1;
      }
      WithoutHere(l, k, z);
      ary := ary[i := l[..k] + l[k + 1..]];
    }

    /** kfree */
    method Kfree(ptr: int)
      requires Valid() && (ptr == 0 || ptr in live)
      modifies this, pages
      ensures Valid()
      ensures Abs() == Freed(c, old(Abs()), ptr)
    {
      hide Inv, FreeLarge, PutChunk, Retire;
      ghost var s := Abs();
      FreeOk(c, s, ptr);
      if ptr == 0 {
        return;
      }
      var kup := usage[ptr / PAGE_SIZE];
      UsageLeads(c, s, ptr);
      if kup.kind == LARGE {
        FreePages(ptr, kup.size);
      } else {
        var z := ptr / PAGE_SIZE - kup.size;
        FreeChunk(ptr, z);
        FreeZone(z);
      }
    }

    method FreePages(ptr: int, n: int)
      requires Valid() && ptr in live && live[ptr].Large? && n == live[ptr].count
      modifies this, pages
      ensures cacheCount == old(cacheCount) && cache == old(cache)
      ensures Abs() == FreeLarge(old(Abs()), ptr, n)
    {
      hide Inv, Give, Marked;
      var p := ptr / PAGE_SIZE;
      LargeFreeable(c, Abs(), ptr);
      usage := usage[p := Usage(LARGE, 0)];
      used := used - n * PAGE_SIZE;
      live := live - {ptr};
      own := Marked(own, p, n, Nobody);
      pages.PageFree(p, n);
    }

    method FreeChunk(ptr: int, z: int)
      requires z in zones && 0 <= zones[z].index < |ary|
      modifies this
      ensures cacheCount == old(cacheCount) && cache == old(cache)
      ensures Abs() == PutChunk(old(Abs()), ptr, z)
    {
      var zone := zones[z];
      zone := zone.(chunks := [ptr] + zone.chunks);
      used := used - zone.chunk;
      if zone.nfree == 0 {
        ary := ary[zone.index := [z] + ary[zone.index]];
      }
      zone := zone.(nfree := zone.nfree + 1);
      zones := zones[z := zone];
      live := live - {ptr};
    }

    method FreeZone(z: int)
      requires Core(c, Abs()) && cacheCount == |cache| <= 2
      requires z in zones && z !in cache && 0 <= zones[z].index < |ary| && z in ary[zones[z].index]
      modifies this, pages
      ensures cacheCount == |cache|
      ensures Abs() == Retire(c, old(Abs()), z)
    {
      hide Core, Give, Marked, FreeUsage, Without, Span, Canonical, Free;
      ghost var s := Abs();
      var zone := zones[z];
      var l := ary[zone.index];
      OnlyZone(c, s, zone.index, z);
      if zone.nfree == zone.nmax && (l[|l| - 1] != z || l[0] != z) {
        Unlink(zone.index, z);
        cache := [z] + cache;
        cacheCount := cacheCount + 1;
        assert cache[1..] == s.cache;
        if cacheCount > 2 {
          var y := cache[0];
          cache := cache[1..];
          cacheCount := cacheCount - 1;
          ZoneFreeable(c, s, z);
          ClearZone(y);
          zones := zones - {y};
          own := Marked(own, y, c.ZonePages(), Nobody);
          pages.PageFree(y, c.ZonePages());
        }
      }
    }
  }

  /** WIDTH_ALIGN to a page, in 32-bit arithmetic. */
  function PageUp(addr: int): int {
    (addr + PAGE_SIZE - 1) % 0x1_0000_0000 / PAGE_SIZE
  }

  /** system_heap_init: nothing happens when no whole page lies between the two addresses. */
  method SystemHeapInit(begin: int, end: int, memory: map<int, Usage>) returns (h: Heap?)
    requires 0 <= begin < 0x1_0000_0000 && 0 <= end < 0x1_0000_0000
    requires PageUp(begin) < end / PAGE_SIZE ==> PageUp(begin) > 0
    requires PageUp(begin) < end / PAGE_SIZE ==> memory.Keys == Span(PageUp(begin), end / PAGE_SIZE - PageUp(begin))
    ensures h == null <==> PageUp(begin) >= end / PAGE_SIZE
    ensures h != null ==> fresh(h) && fresh(h.pages) && h.Valid() && h.Abs() == Fresh(h.c, memory)
    ensures h != null ==> h.c == HeapConfig(PageUp(begin), end / PAGE_SIZE - PageUp(begin))
    ensures h != null ==> begin <= h.c.start * PAGE_SIZE < begin + PAGE_SIZE
    ensures h != null ==> (h.c.start + h.c.pages) * PAGE_SIZE <= end < (h.c.start + h.c.pages) * PAGE_SIZE + PAGE_SIZE
    ensures h != null ==> 4 * h.c.pages <= h.c.tablePages * PAGE_SIZE < 4 * h.c.pages + PAGE_SIZE
  {
    var first, last := PageUp(begin), end / PAGE_SIZE;
    if first >= last {
      return null;
    }
    PagesWithin(begin, end);
    hide Inv, Fresh, PageUp, Span;
    h := new Heap(first, last - first, memory);
  }

  lemma PagesWithin(begin: int, end: int)
    requires 0 <= begin < 0x1_0000_0000 && 0 <= end < 0x1_0000_0000 && 0 < PageUp(begin)
    ensures begin <= PageUp(begin) * PAGE_SIZE < begin + PAGE_SIZE && end / PAGE_SIZE <= 0x10_0000
    ensures end / PAGE_SIZE * PAGE_SIZE <= end < end / PAGE_SIZE * PAGE_SIZE + PAGE_SIZE
  {
  }

  /** The pages that page_alloc would give have usage entries. */
  lemma TakenUsage(c: Config, s: State)
    requires Inv(c, s) && c.ZonePages() > 0
    ensures Take(s.list, c.ZonePages()).Taken? ==>
              var z := Take(s.list, c.ZonePages()).page; forall p :: z <= p < z + c.ZonePages() ==> p in s.usage
  {
    if Take(s.list, c.ZonePages()).Taken? {
      TakenPages(c, s.list, s.own, s.usage, c.ZonePages());
    }
  }

  lemma HeadHasChunk(c: Config, s: State, i: int)
    requires Inv(c, s) && |s.ary| == NZONES && 0 <= i < NZONES && s.ary[i] != [] && s.ary[i][0] in s.zones
    ensures var zone := s.zones[s.ary[i][0]]; zone.uindex + 1 == zone.nmax ==> zone.chunks != []
  {
    hide PagesOk, ZonePagesOk, TableOk, LargesOk, SmallsOk, NoLeak, BytesOk, PageSumOk;
    HeadListed(s.ary, s.zones, s.cache, i);
    assert ZoneOk(c, s.ary[i][0], s.zones[s.ary[i][0]]);
  }

  lemma UsageLeads(c: Config, s: State, ptr: int)
    requires Inv(c, s) && ptr in s.live
    ensures ptr / PAGE_SIZE in s.usage
    ensures var kup := s.usage[ptr / PAGE_SIZE];
            if kup.kind == LARGE then s.live[ptr].Large? && s.live[ptr].count == kup.size
            else
              s.live[ptr].Small? && s.live[ptr].zone == ptr / PAGE_SIZE - kup.size
              && var z := s.live[ptr].zone;
                 && |s.ary| == NZONES && z in s.zones && z !in s.cache && 0 <= s.zones[z].index < NZONES
                 && var s' := PutChunk(s, ptr, z);
                    && Core(c, s') && |s'.cache| <= 2 && z in s'.zones && z !in s'.cache && |s'.ary| == NZONES
                    && s'.zones[z].index == s.zones[z].index && z in s'.ary[s'.zones[z].index]
  {
    InvCore(c, s);
    hide Core;
    UsageOf(c, s, ptr);
    if s.live[ptr].Small? {
      PutChunkOk(c, s, ptr);
      ListsSize(c, PutChunk(s, ptr, s.live[ptr].zone));
    }
  }

  lemma WithoutSkip(l: seq<int>, k: int, z: int)
    requires 0 <= k < |l| && l[k] != z && z in l[k..]
    ensures k + 1 < |l| && z in l[k + 1..]
    ensures l[..k] + Without(l[k..], z) == l[..k + 1] + Without(l[k + 1..], z)
  {
    assert l[k..] == [l[k]] + l[k + 1..];
    assert l[..k + 1] == l[..k] + [l[k]];
    assert l[k..][1..] == l[k + 1..];
    var r := Without(l[k + 1..], z);
    assert l[..k] + ([l[k]] + r) == (l[..k] + [l[k]]) + r;
  }

  lemma WithoutHere(l: seq<int>, k: int, z: int)
    requires 0 <= k < |l| && l[k] == z
    ensures Without(l[k..], z) == l[k + 1..]
  {
    assert l[k..][1..] == l[k + 1..];
  }

  lemma FreshIs(c: Config, memory: map<int, Usage>)
    ensures Fresh(c, memory)
            == State(if c.pages == c.tablePages then [] else [Run(c.start + c.tablePages, c.pages - c.tablePages)],
                     map[], seq(NZONES, i => []), [], memory, 0, 0, map[], FreshOwners(c))
  {
  }

  lemma TableRoom(n: int)
    requires 0 < n
    ensures AlignUp(n * 4, PAGE_SIZE) / PAGE_SIZE == (n + 1023) / 1024
    ensures 0 < (n + 1023) / 1024 <= n && n * PAGE_SIZE / 1024 == n * 4
  {
  }

  /** page_alloc on a fresh heap takes the first pages. */
  lemma TakeFirst(start: int, n: int, m: int)
    requires 0 < m <= n
    ensures Take([Run(start, n)], m) == Taken(start, if n == m then [] else [Run(start + m, n - m)])
  {
    assert [Run(start, n)][1..] == [];
  }

  /** A zone that is both first and last is alone on its list. */
  lemma OnlyZone(c: Config, s: State, i: int, z: int)
    requires Core(c, s) && 0 <= i < |s.ary| && z in s.ary[i]
    ensures var l := s.ary[i]; l[|l| - 1] == z == l[0] <==> l == [z]
  {
    var l := s.ary[i];
    assert NoDup(l);
  }

  /** The page list is what page_alloc and page_free expect. */
  lemma PageListOk(c: Config, s: State)
    requires Inv(c, s)
    ensures Canonical(s.list) && forall i :: 0 <= i < |s.list| ==> s.list[i].page > 0
  {
    RunsHigh(s.list);
  }

  lemma {:induction false} RunsHigh(l: seq<Run>)
    requires Canonical(l) && forall p :: p in Pages.Free(l) ==> p > 0
    ensures forall i :: 0 <= i < |l| ==> l[i].page > 0
  {
    if l != [] {
      CanonicalTail(l);
      FreeBounds(l);
      RunsHigh(l[1..]);
      assert l == [l[0]] + l[1..];
    }
  }
}
