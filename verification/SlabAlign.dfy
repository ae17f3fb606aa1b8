/**
 Alignment of what kmalloc returns: a power-of-two request is aligned to its size up to a page, and above
 a page exactly when the page it comes from is.
 */
module SlabAlign {
  import opened Arith
  import opened Bits
  import opened Pages
  import opened SizeClass
  import opened Slab
  import opened SlabInv
  import opened SlabRun

  // ----- one block -----

  /** A power-of-two chunk is aligned to its size exactly when its zone is; up to a page it always is. */
  lemma Aligned(c: Config, s: State, a: int)
    requires Inv(c, s) && a in s.live && s.live[a].Small?
    ensures s.live[a].chunk > 0 && a % 8 == 0
    ensures PowerOfTwo(s.live[a].chunk) ==>
              (a % s.live[a].chunk == 0 <==> s.live[a].zone * PAGE_SIZE % s.live[a].chunk == 0)
    ensures PowerOfTwo(s.live[a].chunk) && s.live[a].chunk <= PAGE_SIZE ==> a % s.live[a].chunk == 0
  {
    hide PagesOk, ZonePagesOk, TableOk, LargesOk, NoLeak, ListsOk, BytesOk, PageSumOk;
    var z := s.live[a].zone;
    assert SmallOk(a, s.live[a], s.zones, s.cache);
    assert ZoneOk(c, z, s.zones[z]);
    hide ZonesOk, SmallsOk;
    ZoneAligned(c, z, s.zones[z], a);
  }

  lemma ZoneAligned(c: Config, z: int, zone: Zone, a: int)
    requires ZoneOk(c, z, zone) && OnGrid(zone, a)
    ensures zone.chunk > 0 && a % 8 == 0
    ensures PowerOfTwo(zone.chunk) ==> (a % zone.chunk == 0 <==> z * PAGE_SIZE % zone.chunk == 0)
    ensures PowerOfTwo(zone.chunk) && zone.chunk <= PAGE_SIZE ==> z * PAGE_SIZE % zone.chunk == 0
  {
    var k := zone.chunk;
    var j :| 0 <= j <= zone.uindex && a == ChunkAt(zone, j);
    ChunkSizes(zone.index);
    OffsetBounds(k);
    hide Offset, MaxChunks, ChunkOf;
    var off := Offset(k);
    assert a == z * PAGE_SIZE + off + j * k;
    EightAligned(z, off, j, k);
    if PowerOfTwo(k) {
      Shift(z * PAGE_SIZE, off, j, k);
      if k <= PAGE_SIZE { PageMultiple(z, k); }
    }
  }

  lemma ChunkSizes(i: int)
    requires 0 <= i < NZONES
    ensures 8 <= ChunkOf(i) <= 16384 && ChunkOf(i) % 8 == 0
  {
  }

  lemma EightAligned(z: int, off: int, j: int, k: int)
    requires off % 8 == 0 && k % 8 == 0
    ensures (z * PAGE_SIZE + off + j * k) % 8 == 0
  {
    var m := k / 8;
    assert j * k == 8 * (j * m) by { assert k == 8 * m; }
  }

  lemma Shift(x: int, off: int, j: int, k: int)
    requires k > 0 && off % k == 0
    ensures (x + off + j * k) % k == 0 <==> x % k == 0
  {
    var q := off / k;
    assert off == q * k;
    assert x + off + j * k == x + (q + j) * k;
    ModShift(x, q + j, k);
  }

  lemma PageMultiple(z: int, k: int)
    requires PowerOfTwo(k) && k <= PAGE_SIZE
    ensures z * PAGE_SIZE % k == 0
  {
    var m := PageOf(k);
    Multiple(z, m, k);
  }

  /** The number of times `k` fits in a page. */
  function PageOf(k: int): (m: int)
    requires PowerOfTwo(k) && k <= PAGE_SIZE
    ensures m * k == PAGE_SIZE
  {
    if k == 8 then 512 else if k == 16 then 256 else if k == 32 then 128 else if k == 64 then 64 else if k == 128
        then 32
    else if k == 256 then 16 else if k == 512 then 8 else if k == 1024 then 4 else if k == 2048 then 2 else 1
  }

  lemma Multiple(z: int, m: int, k: int)
    requires k > 0
    ensures z * (m * k) % k == 0
  {
    assert z * (m * k) == 0 + (z * m) * k;
    ModShift(0, z * m, k);
  }

  // ----- one call -----

  /** The page a call will give from: of the large block, the first listed zone, the first cached one, or a new one. */
  ghost function SourcePage(c: Config, s: State, n: int): int
    requires Inv(c, s) && 1 <= n < 0x1_0000_0000
    requires !Refused(c, s, n)
  {
    LargeBytesIs(n);
    ZonePagesIs(c);
    if n >= LimitOf(c.zoneSize) then Take(s.list, LargeBytes(n) / PAGE_SIZE).page
    else if s.ary[SizeClassOf(n)] != [] then s.ary[SizeClassOf(n)][0]
    else if s.cache != [] then s.cache[0]
    else Take(s.list, c.ZonePages()).page
  }

  /** A small block comes from the zone at the source page. */
  lemma SmallFrom(c: Config, s: State, n: int)
    requires Inv(c, s) && 1 <= n < LimitOf(c.zoneSize) && !Refused(c, s, n)
    ensures var r := Malloced(c, s, n);
            r.ptr in r.state.live && r.state.live[r.ptr] == Small(n, SourcePage(c, s, n), ZoneIndex(n).chunk)
  {
    hide Inv, ZoneIndex, Take, Offset, MallocZone, MallocNew;
    InvCore(c, s);
    ZoneIndexFits(n);
    ZonePagesIs(c);
    MallocOk(c, s, n);
    var i := SizeClassOf(n);
    if s.ary[i] != [] {
      HeadChunk(c, s, i);
      ListedFrom(s, n, i, ZoneIndex(n).chunk);
    } else {
      NewFrom(c, s, n, i, ZoneIndex(n).chunk);
    }
  }

  lemma ListedFrom(s: State, n: int, i: int, chunk: int)
    requires 0 <= i < |s.ary| && s.ary[i] != [] && s.ary[i][0] in s.zones
    ensures var r := MallocZone(s, n, i, chunk);
            r.ptr in r.state.live && r.state.live[r.ptr] == Small(n, s.ary[i][0], s.zones[s.ary[i][0]].chunk)
  {
  }

  lemma NewFrom(c: Config, s: State, n: int, i: int, chunk: int)
    requires chunk > 0 && 0 <= i < |s.ary| && c.ZonePages() > 0 && (s.cache != [] || Take(s.list, c.ZonePages()).Taken?)
    ensures var r := MallocNew(c, s, n, i, chunk);
            var z := if s.cache != [] then s.cache[0] else Take(s.list, c.ZonePages()).page;
            r.ptr in r.state.live && r.state.live[r.ptr] == Small(n, z, chunk)
  {
    hide Take, NewZone, Marked, SmallUsage;
  }

  lemma HeadChunk(c: Config, s: State, i: int)
    requires Inv(c, s) && 0 <= i < NZONES && s.ary[i] != []
    ensures s.ary[i][0] in s.zones && s.zones[s.ary[i][0]].chunk == ChunkOf(i)
  {
    hide PagesOk, ZonePagesOk, TableOk, LargesOk, SmallsOk, NoLeak, BytesOk, PageSumOk;
    HeadListed(s.ary, s.zones, s.cache, i);
    assert ZoneOk(c, s.ary[i][0], s.zones[s.ary[i][0]]);
  }

  lemma LargeFrom(c: Config, s: State, n: int)
    requires Inv(c, s) && LimitOf(c.zoneSize) <= n < 0x1_0000_0000 && 1 <= n && !Refused(c, s, n)
    ensures Malloced(c, s, n).ptr == SourcePage(c, s, n) * PAGE_SIZE
  {
    MallocOk(c, s, n);
    LargeBytesIs(n);
    hide Inv, Take, LargeBytes, HoldLarge;
  }

  /** The powers of two that zones serve. */
  lemma SmallPowers(k: nat)
    requires Pow2(k) < ZONE_LIMIT
    ensures k <= 13 && (k < 3 ==> Pow2(k) in {1, 2, 4}) && (k >= 3 ==> PowerOfTwo(Pow2(k)))
    ensures ZoneIndex(Pow2(k)).chunk == if k < 3 then 8 else Pow2(k)
  {
    hide ZoneIndex, Pow2;
    Powers();
    if k >= 14 { Pow2Grows(14, k); }
    if k <= 2 {} else if k == 3 {} else if k == 4 {} else if k == 5 {} else if k == 6 {} else if k == 7 {}
    else if k == 8 {} else if k == 9 {} else if k == 10 {} else if k == 11 {} else if k == 12 {}
    PowerChunk(Pow2(k));
  }

  lemma PowerChunk(n: int)
    requires n < ZONE_LIMIT && (n in {1, 2, 4} || PowerOfTwo(n))
    ensures ZoneIndex(n).chunk == if n < 8 then 8 else n
  {
    if n < 8 {} else if n == 8 {} else if n == 16 {} else if n == 32 {} else if n == 64 {} else if n == 128 {}
    else if n == 256 {} else if n == 512 {} else if n == 1024 {} else if n == 2048 {} else if n == 4096 {}
  }

  lemma Powers()
    ensures Pow2(0) == 1 && Pow2(1) == 2 && Pow2(2) == 4 && Pow2(3) == 8 && Pow2(4) == 16 && Pow2(5) == 32
    ensures Pow2(6) == 64 && Pow2(7) == 128 && Pow2(8) == 256 && Pow2(9) == 512 && Pow2(10) == 1024
    ensures Pow2(11) == 2048 && Pow2(12) == 4096 && Pow2(13) == 8192 && Pow2(14) == 16384
  {
  }

  /** A page address is a multiple of `m` pages when its number is a multiple of `m`. */
  lemma PageMod(p: int, m: int)
    requires m > 0
    ensures p * PAGE_SIZE % (PAGE_SIZE * m) == 0 <==> p % m == 0
  {
    var q, r := p / m, p % m;
    assert p * PAGE_SIZE == q * (PAGE_SIZE * m) + r * PAGE_SIZE;
    DivMod(p * PAGE_SIZE, q, r * PAGE_SIZE, PAGE_SIZE * m);
  }

  lemma UpToPage(k: nat)
    requires k <= 12
    ensures Pow2(k) <= PAGE_SIZE
  {
    Pow2Grows(k, 12);
    Powers();
  }

  lemma EightOf(x: int, n: int)
    requires x % 8 == 0 && n in {1, 2, 4}
    ensures x % n == 0
  {
    var q := x / 8;
    assert x == q * 8;
    if n == 1 { Multiple(q, 8, 1); } else if n == 2 { Multiple(q, 4, 2); } else { Multiple(q, 2, 4); }
  }

  lemma WordPowers(k: nat)
    requires k <= 31
    ensures Pow2(k) <= 0x8000_0000 && (k >= 12 ==> Pow2(k) == PAGE_SIZE * Pow2(k - 12) && Pow2(k - 12) <= 0x8_0000)
  {
    hide Pow2;
    Powers();
    Pow2Add(12, 7);
    Pow2Add(12, 19);
    Pow2Grows(k, 31);
    if k >= 12 {
      Pow2Add(12, k - 12);
      Pow2Grows(k - 12, 19);
    }
  }

  /** A power-of-two block is aligned to its size exactly when it is at most a page or its source page is aligned. */
  lemma AlignedIff(c: Config, s: State, k: nat)
    requires Inv(c, s) && k <= 31 && !Refused(c, s, Pow2(k))
    ensures Pow2(k) < 0x1_0000_0000
    ensures Malloced(c, s, Pow2(k)).ptr % Pow2(k) == 0
            <==> k <= 12 || SourcePage(c, s, Pow2(k)) % Pow2(k - 12) == 0
  {
    hide Inv, SourcePage, Malloced, Refused, Pow2;
    WordPowers(k);
    var n := Pow2(k);
    var r, page := Malloced(c, s, n), SourcePage(c, s, n);
    if k > 12 {
      Pow2Add(12, k - 12);
      Powers();
      PageMod(page, Pow2(k - 12));
    }
    InvCore(c, s);
    if k <= 12 { UpToPage(k); }
    if n >= LimitOf(c.zoneSize) {
      LargeFrom(c, s, n);
    } else {
      SmallFrom(c, s, n);
      SmallPowers(k);
      Aligned(c, r.state, r.ptr);
      if k < 3 { EightOf(r.ptr, n); }
    }
  }

  // ----- heaps where it fails -----

  /** A heap with room for `pages` more pages than its usage table, which ends at an odd page. */
  function OddHeap(pages: int): Config {
    var n := pages + 600;
    HeapConfig(if (n + 1023) / 1024 % 2 == 0 then 1 else 2, n)
  }

  lemma OddHeapOk(pages: int)
    requires 0 < pages <= 0x8_0000
    ensures var c := OddHeap(pages);
            && c.Valid() && c.table == c.start && c.start + c.tablePages > 0 && (c.start + c.tablePages) % 2 == 1
            && c.pages - c.tablePages > pages && c.pages - c.tablePages > c.ZonePages()
  {
  }

  /** The first block of a fresh heap comes from the page behind the usage table. */
  lemma FirstPage(c: Config, usage: map<int, Usage>, n: int)
    requires c.Valid() && c.table == c.start && usage.Keys == Span(c.start, c.pages) && 1 <= n <= 0x8000_0000
    requires c.pages - c.tablePages > c.ZonePages() && (c.pages - c.tablePages) * PAGE_SIZE > n
    ensures Inv(c, Fresh(c, usage)) && !Refused(c, Fresh(c, usage), n)
    ensures SourcePage(c, Fresh(c, usage), n) == c.start + c.tablePages
  {
    FreshOk(c, usage);
    LargeBytesIs(n);
    ZonePagesIs(c);
    hide Inv, LargeBytes, FreshOwners, SizeClassOf;
  }

  /** Every power of two above a page has a fresh heap in which kmalloc does not align it. */
  lemma MisalignedEvery(k: nat, usage: map<int, Usage>)
    requires 12 < k <= 31
    requires usage.Keys == Span(OddHeap(Pow2(k - 12)).start, OddHeap(Pow2(k - 12)).pages)
    ensures Pow2(k) < 0x1_0000_0000
    ensures var c := OddHeap(Pow2(k - 12));
            && Inv(c, Fresh(c, usage)) && Malloced(c, Fresh(c, usage), Pow2(k)).ptr != 0
            && Malloced(c, Fresh(c, usage), Pow2(k)).ptr % Pow2(k) != 0
  {
    hide Inv, SourcePage, Malloced, Refused, Pow2, OddHeap, Fresh;
    WordPowers(k);
    var m := Pow2(k - 12);
    var c := OddHeap(m);
    OddHeapOk(m);
    FirstPage(c, usage, Pow2(k));
    AlignedIff(c, Fresh(c, usage), k);
    MallocGives(c, Fresh(c, usage), Pow2(k));
    Pow2Step(k - 13);
    OddPage(c.start + c.tablePages, Pow2(k - 13));
  }

  lemma MallocGives(c: Config, s: State, n: int)
    requires Inv(c, s) && 1 <= n < 0x1_0000_0000 && !Refused(c, s, n)
    ensures Malloced(c, s, n).ptr != 0
  {
    MallocOk(c, s, n);
  }

  lemma OddPage(p: int, m: int)
    requires m > 0 && p % 2 == 1
    ensures p % (2 * m) != 0
  {
    var q := p / (2 * m);
    assert p == q * (2 * m) + p % (2 * m);
    assert q * (2 * m) == 2 * (q * m);
  }
}
