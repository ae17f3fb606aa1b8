/**
 What one call of kmalloc or kfree does to the zones, the cache of idle zones and the free pages, said of
 the states before and after and without the steps between.
 */
module SlabEffect {
  import opened Pages
  import opened SizeClass
  import opened Slab
  import opened SlabInv
  import opened SlabRun

  // ----- kfree of a chunk -----

  /** `a` is the last chunk of its zone in the hands of a caller, and another zone of the same class has room. */
  ghost predicate LeavesIdle(s: State, a: int, z: int)
    requires z in s.zones && 0 <= s.zones[z].index < |s.ary|
  {
    HeldOf(s.live, z) == {a} && exists y :: y in s.ary[s.zones[z].index] && y != z
  }

  /** The zones of a list other than `z`, in order. */
  function Others(l: seq<int>, z: int): (r: seq<int>)
    ensures z !in l ==> r == l
  {
    if l == [] then [] else (if l[0] == z then [] else [l[0]]) + Others(l[1..], z)
  }

  /** The other zones stay as they are and, in order, where they are. */
  ghost predicate OthersKept(s: State, s': State, z: int) {
    && |s'.ary| == |s.ary|
    && (forall y :: y != z ==> (y in s'.zones <==> y in s.zones) && (y in s.zones ==> s'.zones[y] == s.zones[y]))
    && (forall k :: 0 <= k < |s.ary| ==> Others(s'.ary[k], z) == Others(s.ary[k], z))
  }

  /** The usage entries of `n` pages from `z` on are free ones, all others as before. */
  ghost predicate FreeMarked(u: map<int, Usage>, u': map<int, Usage>, z: int, n: int) {
    u'.Keys == u.Keys && forall q :: q in u ==> u'[q] == if z <= q < z + n then Usage(FREE, 0) else u[q]
  }

  /** The usage entries of `n` pages from `z` on say how far each is from `z`, all others are as before. */
  ghost predicate ZoneMarked(u: map<int, Usage>, u': map<int, Usage>, z: int, n: int) {
    u'.Keys == u.Keys && forall q :: q in u ==> u'[q] == if z <= q < z + n then Usage(SMALL, q - z) else u[q]
  }

  /** A zone that was exhausted is listed again, in front. */
  function Listed(l: seq<int>, zone: Zone, z: int): seq<int> { if zone.nfree == 0 then [z] + l else l }

  ghost predicate OnNoList(s: State, z: int) {
    forall k :: 0 <= k < |s.ary| ==> z !in s.ary[k]
  }

  /** kfree of a chunk.  A zone left idle goes off its list: into the cache while that holds fewer than two, otherwise
      back to the free pages.  Every other zone stays, and so do the cache and the free pages. */
  lemma KfreeChunk(c: Config, s: State, a: int)
    requires Inv(c, s) && a in s.live && s.live[a].Small?
    ensures s.live[a].zone in s.zones && 0 <= s.zones[s.live[a].zone].index < |s.ary|
    ensures var z, s' := s.live[a].zone, Freed(c, s, a);
            && OthersKept(s, s', z) && s'.live == s.live - {a}
            && s'.used == s.used - s.zones[z].chunk && s'.peak == s.peak
            && if LeavesIdle(s, a, z) then
                 && OnNoList(s', z)
                 && if |s.cache| < 2 then
                      && s'.cache == [z] + s.cache && z in s'.zones
                      && Pages.Free(s'.list) == Pages.Free(s.list) && s'.usage == s.usage
                    else
                      && s'.cache == s.cache && z !in s'.zones
                      && Pages.Free(s'.list) == Pages.Free(s.list) + Span(z, c.ZonePages())
                      && Span(z, c.ZonePages()) !! Pages.Free(s.list)
                      && FreeMarked(s.usage, s'.usage, z, c.ZonePages())
               else
                 && s'.cache == s.cache && Pages.Free(s'.list) == Pages.Free(s.list) && s'.usage == s.usage
                 && z in s'.zones && s'.zones[z].nfree == s.zones[z].nfree + 1
                 && s'.zones[z].chunks == [a] + s.zones[z].chunks
                 && s'.ary[s.zones[z].index] == Listed(s.ary[s.zones[z].index], s.zones[z], z)
  {
    hide Inv, PutChunk, Retire, HeldOf, Span, Free, OthersKept, OnNoList, LeavesIdle, FreeMarked;
    InvCore(c, s);
    hide Core;
    FreeOk(c, s, a);
    UsageOf(c, s, a);
    FreeSmallOk(c, s, a);
    PutChunkOk(c, s, a);
    var z := s.live[a].zone;
    var i, t := s.zones[z].index, PutChunk(s, a, z);
    assert Freed(c, s, a) == Retire(c, t, z);
    PutEffect(c, s, a);
    ListsSize(c, t);
    if LeavesIdle(s, a, z) {
      RetireEffect(c, t, z);
      KeptTrans(s, t, Retire(c, t, z), z);
    } else {
      StayEffect(c, t, z);
    }
  }

  lemma KeptTrans(s: State, t: State, s': State, z: int)
    requires OthersKept(s, t, z) && OthersKept(t, s', z)
    ensures OthersKept(s, s', z)
  {
  }

  /** The chunk is on the zone's list; the zone has become idle exactly when it was the last one held. */
  lemma PutEffect(c: Config, s: State, a: int)
    requires Inv(c, s) && a in s.live && s.live[a].Small?
    ensures var z := s.live[a].zone;
            && z in s.zones && 0 <= s.zones[z].index < |s.ary|
            && var t := PutChunk(s, a, z);
               && OthersKept(s, t, z) && t.cache == s.cache && t.list == s.list && t.usage == s.usage
               && t.live == s.live - {a} && |t.ary| == |s.ary|
               && t.ary[s.zones[z].index] == Listed(s.ary[s.zones[z].index], s.zones[z], z)
               && t.used == s.used - s.zones[z].chunk && t.peak == s.peak
               && z in t.zones && t.zones[z].index == s.zones[z].index
               && t.zones[z].chunks == [a] + s.zones[z].chunks && t.zones[z].nfree == s.zones[z].nfree + 1
               && (LeavesIdle(s, a, z) <==> t.zones[z].nfree == t.zones[z].nmax && t.ary[t.zones[z].index] != [z])
  {
    hide Inv, HeldOf, OthersKept, PutChunk, ListsOk;
    ZoneOfBlock(c, s, a);
    var z := s.live[a].zone;
    ZoneCount(c, s, z);
    LastHeld(s.live, a, z);
    PutListed(s.ary, s.zones, s.cache, z);
    PutIs(s, a, z);
  }

  lemma ZoneOfBlock(c: Config, s: State, a: int)
    requires Inv(c, s) && a in s.live && s.live[a].Small?
    ensures var z := s.live[a].zone;
            && z in s.zones && z !in s.cache && |s.ary| == NZONES && 0 <= s.zones[z].index < NZONES
            && s.zones[z].nfree >= 0 && ListsOk(s.ary, s.zones, s.cache)
  {
    hide PagesOk, ZonePagesOk, TableOk, LargesOk, NoLeak, BytesOk, PageSumOk;
    assert SmallOk(a, s.live[a], s.zones, s.cache);
    assert ZoneOk(c, s.live[a].zone, s.zones[s.live[a].zone]);
  }

  lemma PutIs(s: State, a: int, z: int)
    requires z in s.zones && 0 <= s.zones[z].index < |s.ary|
    ensures var t, i := PutChunk(s, a, z), s.zones[z].index;
            && OthersKept(s, t, z) && t.cache == s.cache && t.list == s.list && t.usage == s.usage
            && t.live == s.live - {a} && t.ary == s.ary[i := Listed(s.ary[i], s.zones[z], z)]
            && t.used == s.used - s.zones[z].chunk && t.peak == s.peak
            && t.zones == s.zones[z := s.zones[z].(chunks := [a] + s.zones[z].chunks, nfree := s.zones[z].nfree + 1)]
  {
    OthersPush(s.ary[s.zones[z].index], z);
    hide Others;
  }

  lemma LastHeld(live: map<int, Block>, a: int, z: int)
    requires a in live && live[a].Small? && live[a].zone == z
    ensures HeldOf(live, z) == {a} <==> |HeldOf(live, z)| == 1
  {
    var held := HeldOf(live, z);
    assert a in held;
    if |held| == 1 {
      assert |held - {a}| == 0;
      assert held - {a} == {};
    }
  }

  /** A zone is alone on its list, once it is there, exactly when no other zone is on it. */
  lemma PutListed(ary: seq<seq<int>>, zones: map<int, Zone>, cache: seq<int>, z: int)
    requires ListsOk(ary, zones, cache) && z in zones && z !in cache && 0 <= zones[z].index < NZONES
    requires zones[z].nfree >= 0
    ensures var i := zones[z].index;
            Listed(ary[i], zones[z], z) != [z] <==> exists y :: y in ary[i] && y != z
  {
    var l := ary[zones[z].index];
    if zones[z].nfree == 0 {
      assert z !in l;
      if l != [] {
        assert l[0] in l && l[0] != z;
        assert |[z] + l| > 1;
      } else {
        assert [z] + l == [z];
      }
    } else {
      assert z in l;
      if l != [z] {
        assert |l| > 1;
        assert l[0] in l && l[1] in l && l[0] != l[1];
      }
    }
  }

  /** An idle zone leaves its list for the cache or, when the cache is full, for the free pages. */
  lemma RetireEffect(c: Config, t: State, z: int)
    requires Core(c, t) && z in t.zones && z !in t.cache && |t.ary| == NZONES && 0 <= t.zones[z].index < NZONES
    requires t.zones[z].nfree == t.zones[z].nmax && t.ary[t.zones[z].index] != [z]
    ensures var s' := Retire(c, t, z);
            && OthersKept(t, s', z) && OnNoList(s', z) && s'.live == t.live && s'.used == t.used && s'.peak == t.peak
            && if |t.cache| < 2 then
                 && s'.cache == [z] + t.cache && z in s'.zones
                 && Pages.Free(s'.list) == Pages.Free(t.list) && s'.usage == t.usage
               else
                 && s'.cache == t.cache && z !in s'.zones
                 && Pages.Free(s'.list) == Pages.Free(t.list) + Span(z, c.ZonePages())
                 && Span(z, c.ZonePages()) !! Pages.Free(t.list)
                 && FreeMarked(t.usage, s'.usage, z, c.ZonePages())
  {
    hide Core, Span, Free, Give, Without, Canonical, OffList, FreeMarked, OnNoList, OthersKept, Retire, FreeUsage,
        ListsOk;
    ZoneFreeable(c, t, z);
    GiveCorrect(t.list, z, c.ZonePages());
    CoreLists(c, t);
    Unlisted(t.ary, t.zones, t.cache, z);
    UsageFreed(t.usage, z, c.ZonePages());
    RetireIs(c, t, z);
    OffListMeans(t, Retire(c, t, z), z);
  }

  lemma CoreLists(c: Config, s: State)
    requires Core(c, s)
    ensures ListsOk(s.ary, s.zones, s.cache)
  {
  }

  lemma UsageFreed(u: map<int, Usage>, z: int, n: int)
    ensures FreeMarked(u, FreeUsage(u, z, n), z, n)
  {
  }

  lemma UsageZoned(u: map<int, Usage>, z: int, n: int)
    ensures ZoneMarked(u, SmallUsage(u, z, n), z, n)
  {
  }

  lemma RetireIs(c: Config, t: State, z: int)
    requires z in t.zones && 0 <= t.zones[z].index < |t.ary|
    requires t.zones[z].nfree == t.zones[z].nmax && t.ary[t.zones[z].index] != [z]
    ensures var s', i := Retire(c, t, z), t.zones[z].index;
            && s'.ary == t.ary[i := Without(t.ary[i], z)]
            && s'.live == t.live && s'.used == t.used && s'.peak == t.peak
            && if |t.cache| < 2 then
                 s'.cache == [z] + t.cache && s'.zones == t.zones && s'.list == t.list && s'.usage == t.usage
               else
                 && s'.cache == t.cache && s'.zones == t.zones - {z} && s'.list == Give(t.list, z, c.ZonePages())
                 && s'.usage == FreeUsage(t.usage, z, c.ZonePages())
  {
    hide Give, Marked, FreeUsage, Without;
  }

  /** `ary'` is `ary` without `z`. */
  ghost predicate OffList(ary: seq<seq<int>>, ary': seq<seq<int>>, z: int) {
    && |ary'| == |ary|
    && forall k :: 0 <= k < |ary| ==> z !in ary'[k] && Others(ary'[k], z) == Others(ary[k], z)
  }

  lemma OffListMeans(t: State, s': State, z: int)
    requires OffList(t.ary, s'.ary, z)
    requires forall y :: y != z ==> (y in s'.zones <==> y in t.zones) && (y in t.zones ==> s'.zones[y] == t.zones[y])
    ensures OthersKept(t, s', z) && OnNoList(s', z)
  {
  }

  lemma Unlisted(ary: seq<seq<int>>, zones: map<int, Zone>, cache: seq<int>, z: int)
    requires ListsOk(ary, zones, cache) && z in zones && 0 <= zones[z].index < NZONES
    ensures OffList(ary, ary[zones[z].index := Without(ary[zones[z].index], z)], z)
  {
    var i := zones[z].index;
    WithoutIs(ary[i], z);
    OthersWithout(ary[i], z);
    hide Without, Others;
    var ary' := ary[i := Without(ary[i], z)];
    forall k | 0 <= k < |ary| ensures z !in ary'[k] && Others(ary'[k], z) == Others(ary[k], z) {}
  }

  lemma OthersPush(l: seq<int>, z: int)
    ensures Others([z] + l, z) == Others(l, z)
  {
    assert ([z] + l)[1..] == l;
  }

  lemma {:induction false} OthersWithout(l: seq<int>, z: int)
    ensures Others(Without(l, z), z) == Others(l, z)
  {
    if l != [] && l[0] != z {
      OthersWithout(l[1..], z);
      var r := Without(l[1..], z);
      assert ([l[0]] + r)[1..] == r;
    }
  }

  lemma StayEffect(c: Config, t: State, z: int)
    requires z in t.zones && 0 <= t.zones[z].index < |t.ary|
    requires !(t.zones[z].nfree == t.zones[z].nmax && t.ary[t.zones[z].index] != [z])
    ensures Retire(c, t, z) == t
  {
  }

  // ----- kfree of a large block, or of nothing -----

  /** kfree of a large block gives exactly its pages back and touches no zone. */
  lemma KfreePages(c: Config, s: State, a: int)
    requires Inv(c, s) && a in s.live && s.live[a].Large?
    ensures var n, s' := s.live[a].count, Freed(c, s, a);
            && a % PAGE_SIZE == 0 && n > 0 && Span(a / PAGE_SIZE, n) !! Pages.Free(s.list)
            && Pages.Free(s'.list) == Pages.Free(s.list) + Span(a / PAGE_SIZE, n)
            && s'.zones == s.zones && s'.ary == s.ary && s'.cache == s.cache
            && s'.usage == s.usage[a / PAGE_SIZE := Usage(LARGE, 0)]
            && s'.live == s.live - {a} && s'.used == s.used - n * PAGE_SIZE && s'.peak == s.peak
  {
    LargePages(s.live, a, s.own, s.usage);
    InvCore(c, s);
    hide Core, Inv;
    FreeOk(c, s, a);
    UsageOf(c, s, a);
    LargeFreeable(c, s, a);
    hide Span, Free, Give, Canonical, Marked;
    GiveCorrect(s.list, a / PAGE_SIZE, s.live[a].count);
  }

  // ----- kmalloc -----

  /** The largest amount ever in use. */
  ghost predicate PeakKept(s: State, s': State) {
    s'.peak == if s'.used > s.peak then s'.used else s.peak
  }

  /** Requests of at least a quarter of a zone, at most 16 KiB, go to the pages. */
  predicate ByPages(c: Config, n: int) {
    n >= if c.zoneSize == 32768 then 8192 else 16384
  }

  /** kmalloc of a large block: just enough whole pages, the lowest that are free, and no zone is touched. */
  lemma KmallocPages(c: Config, s: State, n: int)
    requires Inv(c, s) && 1 <= n < 0x1_0000_0000 && ByPages(c, n) && Malloced(c, s, n).ptr != 0
    ensures var r := Malloced(c, s, n);
            var a, s' := r.ptr, r.state;
            && a % PAGE_SIZE == 0 && a in s'.live && s'.live[a].Large? && s'.live == s.live[a := s'.live[a]]
            && var k := s'.live[a].count;
               && n <= k * PAGE_SIZE < n + PAGE_SIZE && s'.used == s.used + k * PAGE_SIZE && PeakKept(s, s')
               && Span(a / PAGE_SIZE, k) <= Pages.Free(s.list)
               && (forall p :: Pages.Fits(s.list, p, k) ==> a / PAGE_SIZE <= p)
               && Pages.Free(s'.list) == Pages.Free(s.list) - Span(a / PAGE_SIZE, k)
               && s'.zones == s.zones && s'.ary == s.ary && s'.cache == s.cache
               && s'.usage == s.usage[a / PAGE_SIZE := Usage(LARGE, k)]
  {
    LargeBytesIs(n);
    InvCore(c, s);
    MallocOk(c, s, n);
    PagesSorted(c, s);
    hide Core, Inv, LargeBytes, Refused, MallocLarge, Span, Free, Pages.Fits, PeakKept;
    assert n >= LimitOf(c.zoneSize);
    LargeEffect(s, n);
  }

  lemma LargeEffect(s: State, n: int)
    requires Canonical(s.list) && 1 <= n < 0x1_0000_0000 && MallocLarge(s, n).ptr != 0
    ensures var r, k := MallocLarge(s, n), LargeBytes(n) / PAGE_SIZE;
            var a, s' := r.ptr, r.state;
            && a % PAGE_SIZE == 0 && s'.live == s.live[a := Large(n, k)]
            && s'.used == s.used + k * PAGE_SIZE && PeakKept(s, s')
            && Span(a / PAGE_SIZE, k) <= Pages.Free(s.list)
            && (forall p :: Pages.Fits(s.list, p, k) ==> a / PAGE_SIZE <= p)
            && Pages.Free(s'.list) == Pages.Free(s.list) - Span(a / PAGE_SIZE, k)
            && s'.zones == s.zones && s'.ary == s.ary && s'.cache == s.cache
            && s'.usage == s.usage[a / PAGE_SIZE := Usage(LARGE, k)]
  {
    LargeBytesIs(n);
    var k := LargeBytes(n) / PAGE_SIZE;
    hide LargeBytes, Take, Span, Free, Canonical, Marked;
    TakeCorrect(s.list, k);
    assert Pages.Fits(s.list, Take(s.list, k).page, k);
    hide Pages.Fits;
  }

  lemma PagesSorted(c: Config, s: State)
    requires Inv(c, s)
    ensures Canonical(s.list)
  {
  }

  /** A chunk of zone `z` is handed out: the next one never used, or else the one freed last. */
  ghost predicate FromListed(s: State, s': State, z: int, a: int) {
    && z in s.zones && z in s'.zones && s'.cache == s.cache && s'.list == s.list && s'.usage == s.usage
    && s'.zones[z].nfree == s.zones[z].nfree - 1
    && var zone := s.zones[z];
       if zone.uindex + 1 < zone.nmax then
         && (forall b :: OnGrid(zone, b) ==> b + zone.chunk <= a)
         && OnGrid(zone, a - zone.chunk) && s'.zones[z].chunks == zone.chunks
       else zone.chunks == [a] + s'.zones[z].chunks
  }

  /** Zone `z` is laid out anew; its first chunk is the one handed out. */
  ghost predicate FromNew(c: Config, s: State, s': State, z: int, a: int) {
    && z in s'.zones && s'.zones[z].nfree == s'.zones[z].nmax - 1 && s'.zones[z].base == a
    && s'.zones[z].uindex == 0 && s'.zones[z].chunks == []
    && if s.cache != [] then s.cache == [z] + s'.cache && s'.list == s.list && s'.usage == s.usage
       else
         && ZoneMarked(s.usage, s'.usage, z, c.ZonePages())
         && s'.cache == [] && Pages.Fits(s.list, z, c.ZonePages())
         && (forall p :: Pages.Fits(s.list, p, c.ZonePages()) ==> z <= p)
         && Pages.Free(s'.list) == Pages.Free(s.list) - Span(z, c.ZonePages())
  }

  /** kmalloc of a chunk: from the first zone of the class that has room, or else from the zone cached last, or else
      from the lowest free pages. */
  lemma KmallocChunk(c: Config, s: State, n: int)
    requires Inv(c, s) && 1 <= n < 0x1_0000_0000 && !ByPages(c, n) && Malloced(c, s, n).ptr != 0
    ensures var r := Malloced(c, s, n);
            var a, s', i, k := r.ptr, r.state, ZoneIndex(n).index, ZoneIndex(n).chunk;
            && a in s'.live && s'.live[a].Small? && s'.live == s.live[a := s'.live[a]]
            && s'.used == s.used + k && PeakKept(s, s') && 0 <= i < |s.ary|
            && var z := s'.live[a].zone;
               && s'.live[a] == Small(n, z, k) && OthersKept(s, s', z) && z in s'.zones && s'.zones[z].index == i
               && if s.ary[i] != [] then
                    && z == s.ary[i][0] && FromListed(s, s', z, a)
                    && s'.ary[i] == if s.zones[z].nfree == 1 then s.ary[i][1..] else s.ary[i]
                  else FromNew(c, s, s', z, a) && s'.ary[i] == [z]
  {
    InvCore(c, s);
    MallocOk(c, s, n);
    PagesSorted(c, s);
    ZonePagesIs(c);
    hide Core, Inv, MallocZone, MallocNew, OthersKept, FromListed, FromNew, PeakKept, Refused, ZoneIndex;
    assert n < LimitOf(c.zoneSize);
    ZoneIndexFits(n);
    var i, k := ZoneIndex(n).index, ZoneIndex(n).chunk;
    if s.ary[i] != [] {
      ListedEffect(c, s, n, i, k);
    } else {
      NewEffect(c, s, n, i, k);
    }
  }

  lemma ListedEffect(c: Config, s: State, n: int, i: int, k: int)
    requires Core(c, s) && 0 <= i < |s.ary| && s.ary[i] != [] && k == ChunkOf(i)
    ensures s.ary[i][0] in s.zones
    ensures var r, z := MallocZone(s, n, i, k), s.ary[i][0];
            && r.state.live == s.live[r.ptr := Small(n, z, k)] && r.state.used == s.used + k && PeakKept(s, r.state)
            && OthersKept(s, r.state, z) && z in r.state.zones && r.state.zones[z].index == i
            && FromListed(s, r.state, z, r.ptr) && |r.state.ary| == |s.ary|
            && r.state.ary[i] == if s.zones[z].nfree == 1 then s.ary[i][1..] else s.ary[i]
  {
    hide PagesOk, ZonePagesOk, TableOk, LargesOk, SmallsOk, NoLeak, BytesOk, PageSumOk;
    HeadListed(s.ary, s.zones, s.cache, i);
    var z := s.ary[i][0];
    assert ZoneOk(c, z, s.zones[z]);
    hide ListsOk, ZonesOk;
    ListedChunk(c, s, n, i, k);
    hide ZoneOk, FromListed;
    OthersPush(s.ary[i][1..], z);
    assert s.ary[i] == [z] + s.ary[i][1..];
    hide Others;
  }

  lemma ListedChunk(c: Config, s: State, n: int, i: int, k: int)
    requires 0 <= i < |s.ary| && s.ary[i] != [] && s.ary[i][0] in s.zones && s.zones[s.ary[i][0]].nfree > 0
    requires ZoneOk(c, s.ary[i][0], s.zones[s.ary[i][0]]) && k == s.zones[s.ary[i][0]].chunk
    ensures var r, z := MallocZone(s, n, i, k), s.ary[i][0]; FromListed(s, r.state, z, r.ptr)
  {
    var zone := s.zones[s.ary[i][0]];
    assert zone.chunk > 0 && 0 <= zone.uindex < zone.nmax && (zone.uindex + 1 == zone.nmax ==> zone.chunks != []);
    hide ZoneOk;
    NextChunk(zone);
    hide OnGrid;
  }

  /** The next chunk lies right behind all that were handed out. */
  lemma NextChunk(zone: Zone)
    requires zone.chunk > 0 && zone.uindex >= 0
    ensures var a := ChunkAt(zone, zone.uindex + 1);
            && (forall b :: OnGrid(zone, b) ==> b + zone.chunk <= a) && OnGrid(zone, a - zone.chunk)
  {
    forall b | OnGrid(zone, b) ensures b + zone.chunk <= ChunkAt(zone, zone.uindex + 1) {
      var j :| 0 <= j <= zone.uindex && b == ChunkAt(zone, j);
      ChunkGap(zone, j, zone.uindex + 1);
    }
    assert ChunkAt(zone, zone.uindex + 1) - zone.chunk == ChunkAt(zone, zone.uindex);
  }

  lemma NewEffect(c: Config, s: State, n: int, i: int, k: int)
    requires k > 0 && 0 <= i < |s.ary| && s.ary[i] == [] && c.ZonePages() > 0 && Canonical(s.list)
    requires MallocNew(c, s, n, i, k).ptr != 0
    ensures var r := MallocNew(c, s, n, i, k);
            && r.ptr in r.state.live && r.state.live[r.ptr].Small?
            && var z := r.state.live[r.ptr].zone;
               && r.state.live == s.live[r.ptr := Small(n, z, k)] && r.state.used == s.used + k && PeakKept(s, r.state)
               && OthersKept(s, r.state, z) && z in r.state.zones && r.state.zones[z].index == i
               && FromNew(c, s, r.state, z, r.ptr) && |r.state.ary| == |s.ary| && r.state.ary[i] == [z]
  {
    hide Take, OpenZone, Marked, SmallUsage, Span, Free, Canonical, Pages.Fits, ZoneMarked, OthersKept;
    if s.cache != [] {
      OpenEffect(c, s.(cache := s.cache[1..]), s.cache[0], n, i, k);
      OpenKept(s, s.(cache := s.cache[1..]), MallocNew(c, s, n, i, k).state, s.cache[0]);
    } else {
      var m := c.ZonePages();
      TakeCorrect(s.list, m);
      var p := Take(s.list, m).page;
      UsageZoned(s.usage, p, m);
      var own := Marked(s.own, p, m, InZone(p));
      var t := s.(list := Take(s.list, m).rest, usage := SmallUsage(s.usage, p, m), own := own);
      OpenEffect(c, t, p, n, i, k);
      OpenKept(s, t, MallocNew(c, s, n, i, k).state, p);
    }
  }

  lemma OpenEffect(c: Config, t: State, z: int, n: int, i: int, k: int)
    requires k > 0 && 0 <= i < |t.ary|
    ensures var r := OpenZone(c, t, z, n, i, k);
            && r.state.live == t.live[r.ptr := Small(n, z, k)] && r.state.used == t.used + k && PeakKept(t, r.state)
            && OthersKept(t, r.state, z) && z in r.state.zones && r.state.zones[z].index == i
            && r.state.zones[z].nfree == r.state.zones[z].nmax - 1 && r.state.zones[z].base == r.ptr
            && r.state.zones[z].uindex == 0 && r.state.zones[z].chunks == []
            && r.state.cache == t.cache && r.state.list == t.list && r.state.usage == t.usage
            && |r.state.ary| == |t.ary| && r.state.ary[i] == [z] + t.ary[i]
  {
    hide MaxChunks, Offset;
    OthersPush(t.ary[i], z);
    hide Others;
  }

  lemma OpenKept(s: State, t: State, s': State, z: int)
    requires OthersKept(t, s', z) && t.zones == s.zones && t.ary == s.ary
    ensures OthersKept(s, s', z)
  {
  }
}
