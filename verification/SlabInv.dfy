/**
 The invariant of the slab allocator and its proof: what every kmalloc and kfree keeps.
 */
module SlabInv {
  import opened Pages
  import opened SizeClass
  import opened Slab

  // ----- one zone -----

  /** The address of chunk number `j`. */
  function ChunkAt(zone: Zone, j: int): int {
    zone.base + j * zone.chunk
  }

  /** The address of a chunk that has been handed out at least once. */
  ghost predicate OnGrid(zone: Zone, a: int) {
    exists j :: 0 <= j <= zone.uindex && a == ChunkAt(zone, j)
  }

  ghost predicate NoDup(l: seq<int>) {
    forall i, j :: 0 <= i < j < |l| ==> l[i] != l[j]
  }

  /** The fixed part of a zone header. */
  ghost predicate ZoneShape(c: Config, z: int, zone: Zone) {
    && 0 <= zone.index < NZONES && zone.chunk == ChunkOf(zone.index) && zone.chunk > 0
    && zone.nmax >= 3 && zone.base == z * PAGE_SIZE + Offset(zone.chunk)
    && HEADER <= Offset(zone.chunk) && Offset(zone.chunk) + zone.nmax * zone.chunk <= c.zoneSize
    && zone.nmax == MaxChunks(c.zoneSize, zone.chunk)
  }

  /** Free chunks are the never used ones and the listed ones; the list has no repeats. */
  ghost predicate ZoneOk(c: Config, z: int, zone: Zone) {
    && ZoneShape(c, z, zone)
    && 0 <= zone.uindex < zone.nmax
    && zone.nfree == (zone.nmax - 1 - zone.uindex) + |zone.chunks|
    && NoDup(zone.chunks) && (forall i :: 0 <= i < |zone.chunks| ==> OnGrid(zone, zone.chunks[i]))
  }

  lemma ChunkGap(zone: Zone, i: int, j: int)
    requires zone.chunk > 0 && i < j
    ensures ChunkAt(zone, i) + zone.chunk <= ChunkAt(zone, j)
  {
    assert (j - i - 1) * zone.chunk >= 0;
    assert (j - i) * zone.chunk == (j - i - 1) * zone.chunk + zone.chunk;
  }

  lemma ChunkApart(zone: Zone, a: int, b: int)
    requires zone.chunk > 0 && OnGrid(zone, a) && OnGrid(zone, b) && a != b
    ensures a + zone.chunk <= b || b + zone.chunk <= a
  {
    var i :| 0 <= i <= zone.uindex && a == ChunkAt(zone, i);
    var j :| 0 <= j <= zone.uindex && b == ChunkAt(zone, j);
    if i < j { ChunkGap(zone, i, j); } else if j < i { ChunkGap(zone, j, i); }
  }

  /** A chunk lies behind the header and inside the pages of its zone. */
  lemma ChunkInside(c: Config, z: int, zone: Zone, a: int)
    requires ZoneShape(c, z, zone) && zone.uindex < zone.nmax && OnGrid(zone, a)
    requires c.zoneSize == c.ZonePages() * PAGE_SIZE
    ensures z * PAGE_SIZE + HEADER <= a && a + zone.chunk <= z * PAGE_SIZE + c.zoneSize
    ensures z <= a / PAGE_SIZE < z + c.ZonePages()
  {
    var j :| 0 <= j <= zone.uindex && a == ChunkAt(zone, j);
    assert 0 <= j * zone.chunk;
    if j + 1 < zone.nmax { ChunkGap(zone, j + 1, zone.nmax); }
    ChunkGap(zone, j, j + 1);
    assert ChunkAt(zone, zone.nmax) == zone.base + zone.nmax * zone.chunk;
    assert ChunkAt(zone, j + 1) <= ChunkAt(zone, zone.nmax);
  }

  /** The next unused chunk is new. */
  lemma ChunkNew(zone: Zone)
    requires zone.chunk > 0
    ensures !OnGrid(zone, ChunkAt(zone, zone.uindex + 1))
  {
    forall j | 0 <= j <= zone.uindex ensures ChunkAt(zone, zone.uindex + 1) != ChunkAt(zone, j) {
      ChunkGap(zone, j, zone.uindex + 1);
    }
  }

  // ----- counting chunks -----

  ghost function GridSet(zone: Zone, n: nat): (g: set<int>)
    requires zone.chunk > 0
    ensures forall j :: 0 <= j < n ==> ChunkAt(zone, j) in g
  {
    if n == 0 then {} else GridSet(zone, n - 1) + {ChunkAt(zone, n - 1)}
  }

  lemma {:induction false} GridSize(zone: Zone, n: nat)
    requires zone.chunk > 0
    ensures |GridSet(zone, n)| == n
    ensures forall a :: a in GridSet(zone, n) ==> a < ChunkAt(zone, n)
  {
    if n > 0 {
      GridSize(zone, n - 1);
      ChunkGap(zone, n - 1, n);
    }
  }

  ghost function Elems(l: seq<int>): set<int> {
    set i | 0 <= i < |l| :: l[i]
  }

  lemma {:induction false} ElemsSize(l: seq<int>)
    requires NoDup(l)
    ensures |Elems(l)| == |l|
  {
    if l != [] {
      var n := |l| - 1;
      ElemsSize(l[..n]);
      assert Elems(l) == Elems(l[..n]) + {l[n]};
      assert l[n] !in Elems(l[..n]);
    }
  }

  lemma SubsetSize(a: set<int>, b: set<int>)
    requires a <= b
    ensures |a| <= |b| && (|a| == |b| ==> a == b)
  {
    assert b == a + (b - a);
    assert |b| == |a| + |b - a|;
  }

  /** A zone whose free count is its maximum has every handed-out chunk on its list. */
  lemma ZoneFull(c: Config, z: int, zone: Zone, a: int)
    requires ZoneOk(c, z, zone)
    ensures zone.nfree <= zone.nmax
    ensures zone.nfree == zone.nmax && OnGrid(zone, a) ==> a in zone.chunks
  {
    GridSize(zone, zone.uindex + 1);
    ElemsSize(zone.chunks);
    assert Elems(zone.chunks) <= GridSet(zone, zone.uindex + 1);
    SubsetSize(Elems(zone.chunks), GridSet(zone, zone.uindex + 1));
    if zone.nfree == zone.nmax && OnGrid(zone, a) {
      assert a in Elems(zone.chunks);
    }
  }

  // ----- the invariant -----

  ghost predicate PagesOk(c: Config, list: seq<Run>, own: map<int, Owner>, usage: map<int, Usage>) {
    && Canonical(list) && own.Keys == Span(c.start, c.pages) && usage.Keys == own.Keys
    && Pages.Free(list) <= own.Keys
    && forall p :: p in own ==> (own[p] == Nobody <==> p in Pages.Free(list))
  }

  /** The pages of zone `z` belong to it, and the usage table says how far each is from the first. */
  ghost predicate ZoneSpan(c: Config, z: int, own: map<int, Owner>, usage: map<int, Usage>) {
    forall p :: z <= p < z + c.ZonePages() ==>
      p in own && own[p] == InZone(z) && p in usage && usage[p] == Usage(SMALL, p - z)
  }

  ghost predicate ZonePagesOk(c: Config, zs: set<int>, own: map<int, Owner>, usage: map<int, Usage>) {
    forall z :: z in zs ==> ZoneSpan(c, z, own, usage)
  }

  ghost predicate TableOk(c: Config, own: map<int, Owner>) {
    forall p :: c.table <= p < c.table + c.tablePages ==> p in own && own[p] == Table
  }

  /** Every zone that is not in the cache. */
  ghost predicate ZonesOk(c: Config, zones: map<int, Zone>, cache: seq<int>) {
    forall z :: z in zones && z !in cache ==> ZoneOk(c, z, zones[z])
  }

  ghost predicate LargeSpan(first: int, count: int, own: map<int, Owner>, usage: map<int, Usage>) {
    && first in usage && usage[first] == Usage(LARGE, count)
    && forall p :: first <= p < first + count ==> p in own && own[p] == InBlock(first)
  }

  ghost predicate LargeOk(a: int, size: int, n: int, own: map<int, Owner>, usage: map<int, Usage>) {
    a % PAGE_SIZE == 0 && n > 0 && size <= n * PAGE_SIZE && LargeSpan(a / PAGE_SIZE, n, own, usage)
  }

  ghost predicate SmallOk(a: int, b: Block, zones: map<int, Zone>, cache: seq<int>)
    requires b.Small?
  {
    && b.zone in zones && b.zone !in cache && zones[b.zone].chunk == b.chunk && b.size <= b.chunk
    && OnGrid(zones[b.zone], a) && a !in zones[b.zone].chunks
  }

  ghost predicate LargesOk(live: map<int, Block>, own: map<int, Owner>, usage: map<int, Usage>) {
    forall a :: a in live && live[a].Large? ==> LargeOk(a, live[a].size, live[a].count, own, usage)
  }

  ghost predicate SmallsOk(live: map<int, Block>, zones: map<int, Zone>, cache: seq<int>) {
    forall a :: a in live && live[a].Small? ==> SmallOk(a, live[a], zones, cache)
  }

  /** A chunk that was handed out and is not on the zone's list is in the hands of a caller. */
  ghost predicate NoLeak(live: map<int, Block>, zones: map<int, Zone>, cache: seq<int>) {
    forall z, a :: z in zones && z !in cache && OnGrid(zones[z], a) && a !in zones[z].chunks ==> HeldIn(live, z, a)
  }

  ghost predicate HeldIn(live: map<int, Block>, z: int, a: int) {
    a in live && live[a].Small? && live[a].zone == z
  }

  /** A zone is on the list of its index exactly when it is active and has a free chunk. */
  ghost predicate ListsOk(ary: seq<seq<int>>, zones: map<int, Zone>, cache: seq<int>) {
    && |ary| == NZONES
    && (forall i :: 0 <= i < NZONES ==> NoDup(ary[i]))
    && (forall i, z :: 0 <= i < NZONES && z in ary[i] ==> z in zones && z !in cache && zones[z].index == i
                                                          && zones[z].nfree > 0)
    && (forall z :: z in zones && z !in cache && zones[z].nfree > 0 && 0 <= zones[z].index < NZONES ==>
        z in ary[zones[z].index])
    && NoDup(cache) && (forall z :: z in cache ==> z in zones)
  }

  /** Bytes or pages of a block. */
  function Weight(b: Block, pages: bool): int {
    match b
    case Small(_, _, chunk) => if pages then 0 else chunk
    case Large(_, n) => if pages then n else n * PAGE_SIZE
  }

  ghost function Total(live: map<int, Block>, pages: bool): int
    decreases |live|
  {
    if a :| a in live then Weight(live[a], pages) + Total(live - {a}, pages) else 0
  }

  lemma {:induction false} TotalPick(live: map<int, Block>, a: int, pages: bool)
    requires a in live
    ensures Total(live, pages) == Weight(live[a], pages) + Total(live - {a}, pages)
    decreases |live|
  {
    var b :| b in live && Total(live, pages) == Weight(live[b], pages) + Total(live - {b}, pages);
    if a != b {
      TotalPick(live - {b}, a, pages);
      TotalPick(live - {a}, b, pages);
      assert live - {b} - {a} == live - {a} - {b};
    }
  }

  lemma TotalAdd(live: map<int, Block>, a: int, b: Block, pages: bool)
    requires a !in live
    ensures Total(live[a := b], pages) == Weight(b, pages) + Total(live, pages)
  {
    TotalPick(live[a := b], a, pages);
    assert live[a := b] - {a} == live;
  }

  function Count(l: seq<Run>): int {
    if l == [] then 0 else l[0].count + Count(l[1..])
  }

  /** Conservation of bytes and of pages. */
  ghost predicate BytesOk(used: int, live: map<int, Block>) {
    used == Total(live, false)
  }

  ghost predicate PageSumOk(c: Config, list: seq<Run>, nzones: int, live: map<int, Block>) {
    Count(list) + c.ZonePages() * nzones + Total(live, true) + c.tablePages == c.pages
  }

  ghost predicate Core(c: Config, s: State) {
    && c.Valid() && PagesOk(c, s.list, s.own, s.usage) && ZonePagesOk(c, s.zones.Keys, s.own, s.usage)
        && TableOk(c, s.own)
    && ZonesOk(c, s.zones, s.cache) && ListsOk(s.ary, s.zones, s.cache)
    && LargesOk(s.live, s.own, s.usage) && SmallsOk(s.live, s.zones, s.cache) && NoLeak(s.live, s.zones, s.cache)
    && BytesOk(s.used, s.live) && PageSumOk(c, s.list, |s.zones|, s.live)
  }

  /** What holds between any two calls. */
  ghost predicate Inv(c: Config, s: State) {
    Core(c, s) && |s.cache| <= 2 && s.used <= s.peak
  }

  // ----- page counts -----

  lemma CountConcat(a: seq<Run>, b: seq<Run>)
    ensures Count(a + b) == Count(a) + Count(b)
  {
    if a == [] {
      assert a + b == b;
    } else {
      assert (a + b)[1..] == a[1..] + b;
      CountConcat(a[1..], b);
    }
  }

  lemma {:induction false} TakeCount(l: seq<Run>, n: int)
    requires n > 0 && Take(l, n).Taken?
    ensures Count(Take(l, n).rest) == Count(l) - n
  {
    if l[0].count > n {
      assert ([Run(l[0].page + n, l[0].count - n)] + l[1..])[1..] == l[1..];
    } else if l[0].count < n {
      TakeCount(l[1..], n);
      var rest := Take(l[1..], n).rest;
      assert ([l[0]] + rest)[1..] == rest;
    }
  }

  lemma {:induction false} GiveCount(l: seq<Run>, p: int, n: int)
    ensures Count(Give(l, p, n)) == Count(l) + n
  {
    if l == [] {
      assert [Run(p, n)][1..] == [];
    } else {
      var b := l[0];
      if b.page + b.count == p {
        if |l| > 1 {
          assert l[1..][0] == l[1] && l[1..][1..] == l[2..];
          assert ([Run(b.page, b.count + n + l[1].count)] + l[2..])[1..] == l[2..];
        }
        assert ([Run(b.page, b.count + n)] + l[1..])[1..] == l[1..];
      } else if b.page == p + n {
        assert ([Run(p, b.count + n)] + l[1..])[1..] == l[1..];
      } else if b.page > p + n {
        assert ([Run(p, n)] + l)[1..] == l;
      } else {
        GiveCount(l[1..], p, n);
        var r := Give(l[1..], p, n);
        assert ([b] + r)[1..] == r;
      }
    }
  }

  /** The page of a live block belongs to its zone or to the block itself. */
  lemma LiveOwner(c: Config, s: State, a: int)
    requires Core(c, s) && a in s.live
    ensures a / PAGE_SIZE in s.own
    ensures match s.live[a]
            case Small(_, z, _) => s.own[a / PAGE_SIZE] == InZone(z)
            case Large(_, _) => s.own[a / PAGE_SIZE] == InBlock(a / PAGE_SIZE)
  {
    match s.live[a]
    case Small(_, z, _) =>
      assert SmallOk(a, s.live[a], s.zones, s.cache);
      assert ZoneOk(c, z, s.zones[z]) && ZoneSpan(c, z, s.own, s.usage);
      ChunkInside(c, z, s.zones[z], a);
    case Large(size, n) =>
      assert LargeOk(a, size, n, s.own, s.usage);
  }

  // ----- pages change hands -----

  lemma TakenPages(c: Config, list: seq<Run>, own: map<int, Owner>, usage: map<int, Usage>, n: int)
    requires PagesOk(c, list, own, usage) && n > 0 && Take(list, n).Taken?
    ensures var t := Take(list, n);
            && Canonical(t.rest) && Pages.Free(t.rest) == Pages.Free(list) - Span(t.page, n)
            && (forall p :: t.page <= p < t.page + n ==> p in own && own[p] == Nobody)
            && t.page in own
  {
    TakeCorrect(list, n);
    var t := Take(list, n);
    forall p | t.page <= p < t.page + n ensures p in own && own[p] == Nobody {
      assert p in Span(t.page, n);
    }
    assert t.page <= t.page < t.page + n;
  }

  lemma TakeKeepsPages(c: Config, list: seq<Run>, own: map<int, Owner>, usage: map<int, Usage>, n: int, o: Owner,
      usage': map<int, Usage>)
    requires PagesOk(c, list, own, usage) && n > 0 && Take(list, n).Taken? && o != Nobody && usage'.Keys == usage.Keys
    ensures var t := Take(list, n); PagesOk(c, t.rest, Marked(own, t.page, n, o), usage')
  {
    TakenPages(c, list, own, usage, n);
  }

  lemma GiveKeepsPages(c: Config, list: seq<Run>, own: map<int, Owner>, usage: map<int, Usage>, p: int, n: int,
      usage': map<int, Usage>)
    requires PagesOk(c, list, own, usage) && n > 0 && usage'.Keys == usage.Keys
    requires forall q :: p <= q < p + n ==> q in own && own[q] != Nobody
    ensures PagesOk(c, Give(list, p, n), Marked(own, p, n, Nobody), usage')
    ensures Span(p, n) !! Pages.Free(list)
  {
    forall q | q in Span(p, n) ensures q !in Pages.Free(list) {
      assert p <= q < p + n;
    }
    GiveCorrect(list, p, n);
  }

  /** Zones, blocks and table keep their pages when pages of nobody, or of one owner, are marked anew. */
  lemma MarkKeepsZones(c: Config, zs: set<int>, own: map<int, Owner>, usage: map<int, Usage>, p: int, n: int, o: Owner,
      usage': map<int, Usage>)
    requires ZonePagesOk(c, zs, own, usage) && usage'.Keys == usage.Keys
    requires forall q :: p <= q < p + n ==> q in own && !(own[q].InZone? && own[q].zone in zs)
    requires forall q :: q in usage && !(p <= q < p + n) ==> usage'[q] == usage[q]
    ensures ZonePagesOk(c, zs, Marked(own, p, n, o), usage')
  {
    forall z | z in zs ensures ZoneSpan(c, z, Marked(own, p, n, o), usage') {
      assert ZoneSpan(c, z, own, usage);
    }
  }

  lemma MarkKeepsLarges(live: map<int, Block>, own: map<int, Owner>, usage: map<int, Usage>, p: int, n: int, o: Owner,
      usage': map<int, Usage>)
    requires LargesOk(live, own, usage) && usage'.Keys == usage.Keys
    requires forall q :: p <= q < p + n ==> q in own && (own[q].InBlock? ==> own[q].first * PAGE_SIZE !in live)
    requires forall q :: q in usage && !(p <= q < p + n) ==> usage'[q] == usage[q]
    ensures LargesOk(live, Marked(own, p, n, o), usage')
  {
    forall a | a in live && live[a].Large?
        ensures LargeOk(a, live[a].size, live[a].count, Marked(own, p, n, o), usage') {
      assert LargeOk(a, live[a].size, live[a].count, own, usage);
      var f := a / PAGE_SIZE;
      assert f * PAGE_SIZE == a;
      assert f <= f < f + live[a].count;
      assert own[f] == InBlock(f);
      assert forall q :: q in own && f <= q < f + live[a].count ==> own[q] == InBlock(f) && !(p <= q < p + n);
    }
  }

  lemma MarkKeepsTable(c: Config, own: map<int, Owner>, p: int, n: int, o: Owner)
    requires TableOk(c, own) && forall q :: p <= q < p + n ==> q in own && own[q] != Table
    ensures TableOk(c, Marked(own, p, n, o))
  {
  }

  // ----- large blocks -----

  lemma HoldLargeOk(c: Config, s: State, size: int, n: int)
    requires Core(c, s) && n > 0 && size <= n * PAGE_SIZE && Take(s.list, n).Taken?
    ensures var t := Take(s.list, n);
            && Core(c, HoldLarge(s, size, n, t.page, t.rest))
            && t.page * PAGE_SIZE !in s.live && t.page > 0
  {
    hide PagesOk, ZonePagesOk, TableOk, LargesOk, SmallsOk, NoLeak, ListsOk, ZonesOk, Marked, Take, BytesOk, PageSumOk;
    var t := Take(s.list, n);
    var p := t.page;
    var usage := s.usage[p := Usage(LARGE, n)];
    TakenPages(c, s.list, s.own, s.usage, n);
    TakenInHeap(c, s.list, s.own, s.usage, n);
    TakeKeepsPages(c, s.list, s.own, s.usage, n, InBlock(p), usage);
    MarkKeepsZones(c, s.zones.Keys, s.own, s.usage, p, n, InBlock(p), usage);
    MarkKeepsLarges(s.live, s.own, s.usage, p, n, InBlock(p), usage);
    MarkKeepsTable(c, s.own, p, n, InBlock(p));
    NotLive(c, s, p);
    AddLarge(s.live, p, size, n, s.own, usage, s.zones, s.cache);
    HoldLargeSums(c, s, size, n, p, t.rest);
  }

  lemma NotLive(c: Config, s: State, p: int)
    requires Core(c, s) && p in s.own && s.own[p] == Nobody
    ensures p * PAGE_SIZE !in s.live
  {
    assert p * PAGE_SIZE / PAGE_SIZE == p;
    if p * PAGE_SIZE in s.live {
      LiveOwner(c, s, p * PAGE_SIZE);
    }
  }

  lemma HoldLargeSums(c: Config, s: State, size: int, n: int, p: int, rest: seq<Run>)
    requires BytesOk(s.used, s.live) && PageSumOk(c, s.list, |s.zones|, s.live)
    requires n > 0 && Take(s.list, n) == Taken(p, rest) && p * PAGE_SIZE !in s.live
    ensures var s' := HoldLarge(s, size, n, p, rest);
            BytesOk(s'.used, s'.live)
            && PageSumOk(c, s'.list, |s'.zones|, s'.live)
  {
    TakeCount(s.list, n);
    TotalAdd(s.live, p * PAGE_SIZE, Large(size, n), false);
    TotalAdd(s.live, p * PAGE_SIZE, Large(size, n), true);
  }

  lemma TakenInHeap(c: Config, list: seq<Run>, own: map<int, Owner>, usage: map<int, Usage>, n: int)
    requires c.Valid() && PagesOk(c, list, own, usage) && n > 0 && Take(list, n).Taken?
    ensures Take(list, n).page > 0 && Take(list, n).page in usage
  {
    TakenPages(c, list, own, usage, n);
  }

  lemma AddLarge(live: map<int, Block>, p: int, size: int, n: int, own: map<int, Owner>, usage: map<int, Usage>,
      zones: map<int, Zone>, cache: seq<int>)
    requires LargesOk(live, Marked(own, p, n, InBlock(p)), usage) && SmallsOk(live, zones, cache)
    requires NoLeak(live, zones, cache)
    requires p * PAGE_SIZE !in live
    requires n > 0 && size <= n * PAGE_SIZE && p in usage && usage[p] == Usage(LARGE, n)
    requires forall q :: p <= q < p + n ==> q in own
    ensures LargesOk(live[p * PAGE_SIZE := Large(size, n)], Marked(own, p, n, InBlock(p)), usage)
    ensures SmallsOk(live[p * PAGE_SIZE := Large(size, n)], zones, cache)
    ensures NoLeak(live[p * PAGE_SIZE := Large(size, n)], zones, cache)
  {
    var a := p * PAGE_SIZE;
    assert a / PAGE_SIZE == p && a % PAGE_SIZE == 0;
  }

  lemma DropLive(live: map<int, Block>, a: int, own: map<int, Owner>, usage: map<int, Usage>, zones: map<int, Zone>,
      cache: seq<int>)
    ensures LargesOk(live, own, usage) ==> LargesOk(live - {a}, own, usage)
    ensures SmallsOk(live, zones, cache) ==> SmallsOk(live - {a}, zones, cache)
    ensures a in live && live[a].Large? && NoLeak(live, zones, cache) ==> NoLeak(live - {a}, zones, cache)
  {
  }

  lemma FreeLargeOk(c: Config, s: State, a: int, n: int)
    requires Core(c, s) && a in s.live && s.live[a].Large? && s.live[a].count == n
    ensures Core(c, FreeLarge(s, a, n))
  {
    hide PagesOk, ZonePagesOk, TableOk, LargesOk, SmallsOk, NoLeak, ListsOk, ZonesOk, Marked, Give, BytesOk, PageSumOk;
    var p := a / PAGE_SIZE;
    var usage := s.usage[p := Usage(LARGE, 0)];
    LargePages(s.live, a, s.own, s.usage);
    GiveKeepsPages(c, s.list, s.own, s.usage, p, n, usage);
    MarkKeepsZones(c, s.zones.Keys, s.own, s.usage, p, n, Nobody, usage);
    DropLive(s.live, a, s.own, s.usage, s.zones, s.cache);
    MarkKeepsLarges(s.live - {a}, s.own, s.usage, p, n, Nobody, usage);
    MarkKeepsTable(c, s.own, p, n, Nobody);
    FreeLargeSums(c, s, a, n);
  }

  lemma LargePages(live: map<int, Block>, a: int, own: map<int, Owner>, usage: map<int, Usage>)
    requires LargesOk(live, own, usage) && a in live && live[a].Large?
    ensures var p, n := a / PAGE_SIZE, live[a].count;
            && n > 0 && p * PAGE_SIZE == a && p in usage && usage[p] == Usage(LARGE, n)
            && forall q :: p <= q < p + n ==> q in own && own[q] == InBlock(p)
  {
    assert LargeOk(a, live[a].size, live[a].count, own, usage);
  }

  lemma FreeLargeSums(c: Config, s: State, a: int, n: int)
    requires BytesOk(s.used, s.live) && PageSumOk(c, s.list, |s.zones|, s.live)
    requires a in s.live && s.live[a].Large? && s.live[a].count == n
    ensures var s' := FreeLarge(s, a, n); BytesOk(s'.used, s'.live) && PageSumOk(c, s'.list, |s'.zones|, s'.live)
  {
    GiveCount(s.list, a / PAGE_SIZE, n);
    TotalPick(s.live, a, false);
    TotalPick(s.live, a, true);
  }

  // ----- chunks of a zone -----

  /** A chunk address of zone `z` is live only as a chunk of `z`. */
  lemma ChunkOwner(c: Config, s: State, z: int, zone: Zone, a: int)
    requires Core(c, s) && z in s.zones && ZoneShape(c, z, zone) && zone.uindex < zone.nmax && OnGrid(zone, a)
    requires a in s.live
    ensures s.live[a].Small? && s.live[a].zone == z && z !in s.cache && OnGrid(s.zones[z], a) && a !in s.zones[z].chunks
  {
    ChunkInside(c, z, zone, a);
    LiveOwner(c, s, a);
    assert ZoneSpan(c, z, s.own, s.usage);
    assert s.own[a / PAGE_SIZE] == InZone(z);
    assert SmallOk(a, s.live[a], s.zones, s.cache);
  }

  /** The zone after handing out one chunk, and the chunk. */
  ghost predicate Handed(zone: Zone, zone': Zone, a: int) {
    && zone' == zone.(nfree := zone.nfree - 1, uindex := zone'.uindex, chunks := zone'.chunks)
    && if zone.uindex + 1 != zone.nmax
       then zone'.uindex == zone.uindex + 1 && zone'.chunks == zone.chunks && a == ChunkAt(zone, zone.uindex + 1)
       else zone'.uindex == zone.uindex && zone.chunks != [] && zone'.chunks == zone.chunks[1..] && a == zone.chunks[0]
  }

  /** kmalloc never pops an empty chunk list, and the chunk it gets is new or was free. */
  lemma HandedOk(c: Config, z: int, zone: Zone, zone': Zone, a: int)
    requires ZoneOk(c, z, zone) && zone.nfree > 0 && Handed(zone, zone', a)
    ensures ZoneOk(c, z, zone') && OnGrid(zone', a) && a !in zone'.chunks
    ensures !OnGrid(zone, a) || a in zone.chunks
    ensures forall b :: OnGrid(zone, b) && b !in zone.chunks ==> OnGrid(zone', b) && b !in zone'.chunks
    ensures forall b :: OnGrid(zone', b) && b !in zone'.chunks && b != a ==> OnGrid(zone, b) && b !in zone.chunks
  {
    forall b | OnGrid(zone', b) && b != a ensures OnGrid(zone, b) {
      var j :| 0 <= j <= zone'.uindex && b == ChunkAt(zone', j);
      assert b == ChunkAt(zone, j);
    }
    forall b | OnGrid(zone, b) ensures OnGrid(zone', b) {
      var j :| 0 <= j <= zone.uindex && b == ChunkAt(zone, j);
      assert b == ChunkAt(zone', j);
    }
    if zone.uindex + 1 != zone.nmax {
      ChunkNew(zone);
      assert a == ChunkAt(zone', zone'.uindex);
    } else {
      assert OnGrid(zone, zone.chunks[0]);
    }
  }

  lemma HeadListed(ary: seq<seq<int>>, zones: map<int, Zone>, cache: seq<int>, i: int)
    requires ListsOk(ary, zones, cache) && 0 <= i < NZONES && ary[i] != []
    ensures var z := ary[i][0]; z in zones && z !in cache && zones[z].index == i && zones[z].nfree > 0
  {
    assert ary[i][0] in ary[i];
  }

  lemma HandOut(c: Config, s: State, size: int, zi: int, chunk: int) returns (zone': Zone)
    requires Core(c, s) && 0 <= zi < NZONES && s.ary[zi] != [] && chunk == ChunkOf(zi) && size <= chunk
    ensures s.ary[zi][0] in s.zones && s.ary[zi][0] !in s.cache
    ensures var z := s.ary[zi][0]; var r := MallocZone(s, size, zi, chunk);
            && s.zones[z].nfree > 0 && s.zones[z].index == zi && s.zones[z].chunk == chunk && ZoneOk(c, z, s.zones[z])
            && Handed(s.zones[z], zone', r.ptr) && r.state.zones == s.zones[z := zone']
            && r.ptr !in s.live
  {
    assert |s.ary| == NZONES;
    hide PagesOk, ZonePagesOk, TableOk, LargesOk, SmallsOk, NoLeak, ListsOk, BytesOk, PageSumOk;
    HeadListed(s.ary, s.zones, s.cache, zi);
    var z := s.ary[zi][0];
    assert ZoneOk(c, z, s.zones[z]);
    hide ZonesOk;
    zone' := HandZone(c, s, size, zi, chunk);
    hide ZoneOk, Handed, MallocZone;
    var r := MallocZone(s, size, zi, chunk);
    HandNew(c, s, z, zone', r.ptr);
  }

  lemma HandZone(c: Config, s: State, size: int, zi: int, chunk: int) returns (zone': Zone)
    requires 0 <= zi < |s.ary| && s.ary[zi] != [] && s.ary[zi][0] in s.zones
    requires var zone := s.zones[s.ary[zi][0]]; ZoneOk(c, s.ary[zi][0], zone) && zone.nfree > 0 && zone.chunk == chunk
    ensures var z := s.ary[zi][0]; var r := MallocZone(s, size, zi, chunk);
            Handed(s.zones[z], zone', r.ptr) && r.state.zones == s.zones[z := zone']
  {
    var z := s.ary[zi][0];
    var zone := s.zones[z];
    assert zone.uindex + 1 == zone.nmax ==> zone.chunks != [];
    zone' := MallocZone(s, size, zi, chunk).state.zones[z];
  }

  lemma HandNew(c: Config, s: State, z: int, zone': Zone, a: int)
    requires Core(c, s) && z in s.zones && ZoneOk(c, z, s.zones[z]) && s.zones[z].nfree > 0
    requires Handed(s.zones[z], zone', a)
    ensures a !in s.live
  {
    HandedOk(c, z, s.zones[z], zone', a);
    ZoneOkShape(c, z, zone');
    hide Core, ZoneOk, Handed, ZoneShape, OnGrid;
    if a in s.live {
      ChunkOwner(c, s, z, zone', a);
    }
  }

  lemma ZoneOkShape(c: Config, z: int, zone: Zone)
    requires ZoneOk(c, z, zone)
    ensures ZoneShape(c, z, zone) && zone.uindex < zone.nmax
  {
  }

  /** One zone changes; the others and the page layer stay. */
  lemma ZoneChange(c: Config, zones: map<int, Zone>, cache: seq<int>, z: int, zone: Zone)
    requires ZonesOk(c, zones, cache) && (z in cache || ZoneOk(c, z, zone))
    ensures ZonesOk(c, zones[z := zone], cache)
  {
  }

  lemma MallocZoneOk(c: Config, s: State, size: int, zi: int, chunk: int)
    requires Core(c, s) && 0 <= zi < NZONES && s.ary[zi] != [] && chunk == ChunkOf(zi) && size <= chunk
    ensures s.ary[zi][0] in s.zones
    ensures Core(c, MallocZone(s, size, zi, chunk).state) && MallocZone(s, size, zi, chunk).ptr !in s.live
  {
    assert |s.ary| == NZONES;
    hide PagesOk, ZonePagesOk, TableOk, LargesOk, SmallsOk, NoLeak, ListsOk, ZonesOk, BytesOk, PageSumOk, Handed,
        ZoneOk, MallocZone, OnGrid;
    var zone' := HandOut(c, s, size, zi, chunk);
    var z := s.ary[zi][0];
    var r := MallocZone(s, size, zi, chunk);
    HandedOk(c, z, s.zones[z], zone', r.ptr);
    ZoneChange(c, s.zones, s.cache, z, zone');
    MallocZoneIs(s, size, zi, chunk, zone');
    HandedLists(s.ary, s.zones, s.cache, zi, zone', r.ptr);
    HandedSmalls(s.live, s.zones, s.cache, z, zone', r.ptr, size);
    AddSmall(s.live, r.ptr, Small(size, z, chunk), s.own, s.usage);
    AddSums(c, s, r.ptr, Small(size, z, chunk));
    assert s.zones[z := zone'].Keys == s.zones.Keys;
  }

  lemma MallocZoneIs(s: State, size: int, zi: int, chunk: int, zone': Zone)
    requires 0 <= zi < |s.ary| && s.ary[zi] != [] && s.ary[zi][0] in s.zones
    requires var z := s.ary[zi][0];
            MallocZone(s, size, zi, chunk).state.zones == s.zones[z := zone']
            && s.zones[z].chunk == chunk && zone'.nfree == s.zones[z].nfree - 1
    ensures var z := s.ary[zi][0]; var r := MallocZone(s, size, zi, chunk);
            r.state == Peak(s.(zones := s.zones[z := zone'], ary := if zone'.nfree == 0 then s.ary[zi := s.ary[zi][1..]]
                else s.ary,
                               used := s.used + chunk, live := s.live[r.ptr := Small(size, z, chunk)]))
  {
  }

  lemma HandedLists(ary: seq<seq<int>>, zones: map<int, Zone>, cache: seq<int>, zi: int, zone': Zone, a: int)
    requires ListsOk(ary, zones, cache) && 0 <= zi < NZONES && ary[zi] != [] && ary[zi][0] in zones
    requires ary[zi][0] !in cache
    requires zones[ary[zi][0]].index == zi && Handed(zones[ary[zi][0]], zone', a) && zone'.nfree >= 0
    ensures ListsOk(if zone'.nfree == 0 then ary[zi := ary[zi][1..]] else ary, zones[ary[zi][0] := zone'], cache)
  {
    var z := ary[zi][0];
    if zone'.nfree == 0 {
      var l := ary[zi];
      assert NoDup(l);
      assert z !in l[1..];
      assert forall y :: y in l <==> y == z || y in l[1..];
    }
  }

  lemma HandedSmalls(live: map<int, Block>, zones: map<int, Zone>, cache: seq<int>, z: int, zone': Zone, a: int,
      size: int)
    requires SmallsOk(live, zones, cache) && NoLeak(live, zones, cache) && z in zones && z !in cache && a !in live
    requires forall b :: OnGrid(zone', b) && b !in zone'.chunks && b != a ==> OnGrid(zones[z], b)
                                                                              && b !in zones[z].chunks
    requires zone'.chunk == zones[z].chunk && size <= zone'.chunk && OnGrid(zone', a) && a !in zone'.chunks
    requires forall b :: OnGrid(zones[z], b) && b !in zones[z].chunks ==> OnGrid(zone', b) && b !in zone'.chunks
    ensures SmallsOk(live[a := Small(size, z, zone'.chunk)], zones[z := zone'], cache)
    ensures NoLeak(live[a := Small(size, z, zone'.chunk)], zones[z := zone'], cache)
  {
    hide OnGrid;
    var live', zones' := live[a := Small(size, z, zone'.chunk)], zones[z := zone'];
    forall b | b in live' && live'[b].Small? ensures SmallOk(b, live'[b], zones', cache) {
      if b != a {
        assert SmallOk(b, live[b], zones, cache);
      }
    }
  }

  lemma AddSmall(live: map<int, Block>, a: int, b: Block, own: map<int, Owner>, usage: map<int, Usage>)
    requires LargesOk(live, own, usage) && b.Small?
    ensures LargesOk(live[a := b], own, usage)
  {
  }

  lemma AddSums(c: Config, s: State, a: int, b: Block)
    requires BytesOk(s.used, s.live) && PageSumOk(c, s.list, |s.zones|, s.live) && a !in s.live && b.Small?
    ensures BytesOk(s.used + b.chunk, s.live[a := b]) && PageSumOk(c, s.list, |s.zones|, s.live[a := b])
  {
    TotalAdd(s.live, a, b, false);
    TotalAdd(s.live, a, b, true);
  }

  // ----- freeing a chunk -----

  lemma PutChunkOk(c: Config, s: State, a: int)
    requires Core(c, s) && a in s.live && s.live[a].Small?
    ensures var z := s.live[a].zone;
            && z in s.zones && z !in s.cache && 0 <= s.zones[z].index < NZONES
            && Core(c, PutChunk(s, a, z)) && PutChunk(s, a, z).zones[z].nfree > 0
            && z in PutChunk(s, a, z).ary[s.zones[z].index] && PutChunk(s, a, z).zones[z].index == s.zones[z].index
  {
    hide PagesOk, ZonePagesOk, TableOk, LargesOk, NoLeak, ListsOk, BytesOk, PageSumOk;
    var z := s.live[a].zone;
    assert SmallOk(a, s.live[a], s.zones, s.cache);
    var zone := s.zones[z];
    assert ZoneOk(c, z, zone);
    var zone' := zone.(chunks := [a] + zone.chunks, nfree := zone.nfree + 1);
    PutZoneOk(c, z, zone, a);
    hide ZoneOk, ZonesOk, SmallsOk;
    ZoneChange(c, s.zones, s.cache, z, zone');
    PutLists(s.ary, s.zones, s.cache, z, zone');
    DropLive(s.live, a, s.own, s.usage, s.zones, s.cache);
    PutSmalls(s.live, s.zones, s.cache, z, zone', a);
    DropSums(c, s, a);
    assert s.zones[z := zone'].Keys == s.zones.Keys;
  }

  lemma PutZoneOk(c: Config, z: int, zone: Zone, a: int)
    requires ZoneOk(c, z, zone) && OnGrid(zone, a) && a !in zone.chunks
    ensures ZoneOk(c, z, zone.(chunks := [a] + zone.chunks, nfree := zone.nfree + 1)) && zone.nfree >= 0
  {
    var zone' := zone.(chunks := [a] + zone.chunks, nfree := zone.nfree + 1);
    forall b | OnGrid(zone, b) ensures OnGrid(zone', b) {
      var j :| 0 <= j <= zone.uindex && b == ChunkAt(zone, j);
      assert b == ChunkAt(zone', j);
    }
    assert forall i :: 0 <= i < |zone'.chunks| ==> zone'.chunks[i] == if i == 0 then a else zone.chunks[i - 1];
  }

  lemma PutLists(ary: seq<seq<int>>, zones: map<int, Zone>, cache: seq<int>, z: int, zone': Zone)
    requires ListsOk(ary, zones, cache) && z in zones && z !in cache && 0 <= zones[z].index < NZONES
    requires zones[z].nfree >= 0
    requires zone'.index == zones[z].index && zone'.nfree == zones[z].nfree + 1
    ensures var i := zone'.index; var ary' := if zones[z].nfree == 0 then ary[i := [z] + ary[i]] else ary;
            ListsOk(ary', zones[z := zone'], cache) && z in ary'[i]
  {
    var i := zone'.index;
    if zones[z].nfree == 0 {
      assert z !in ary[i];
      assert NoDup([z] + ary[i]);
      assert forall y :: y in [z] + ary[i] <==> y == z || y in ary[i];
    }
  }

  lemma PutSmalls(live: map<int, Block>, zones: map<int, Zone>, cache: seq<int>, z: int, zone': Zone, a: int)
    requires SmallsOk(live, zones, cache) && NoLeak(live, zones, cache) && z in zones && a in live && live[a].Small?
    requires live[a].zone == z
    requires zone' == zones[z].(chunks := [a] + zones[z].chunks, nfree := zones[z].nfree + 1)
    ensures SmallsOk(live - {a}, zones[z := zone'], cache) && NoLeak(live - {a}, zones[z := zone'], cache)
  {
    PutNoLeak(live, zones, cache, z, zone', a);
    var zones' := zones[z := zone'];
    forall b | b in live - {a} && live[b].Small? ensures SmallOk(b, live[b], zones', cache) {
      assert SmallOk(b, live[b], zones, cache);
      if live[b].zone == z {
        var j :| 0 <= j <= zones[z].uindex && b == ChunkAt(zones[z], j);
        assert b == ChunkAt(zone', j);
      }
    }
  }

  lemma PutNoLeak(live: map<int, Block>, zones: map<int, Zone>, cache: seq<int>, z: int, zone': Zone, a: int)
    requires NoLeak(live, zones, cache) && z in zones && a in live && live[a].Small? && live[a].zone == z
    requires zone' == zones[z].(chunks := [a] + zones[z].chunks, nfree := zones[z].nfree + 1)
    ensures NoLeak(live - {a}, zones[z := zone'], cache)
  {
    var zones' := zones[z := zone'];
    forall y, b | y in zones' && y !in cache && OnGrid(zones'[y], b) && b !in zones'[y].chunks
        ensures HeldIn(live - {a}, y, b) {
      if y == z {
        var j :| 0 <= j <= zone'.uindex && b == ChunkAt(zone', j);
        assert b == ChunkAt(zones[z], j);
        assert b != a && b !in zones[z].chunks;
      }
      assert HeldIn(live, y, b);
    }
  }

  lemma DropSums(c: Config, s: State, a: int)
    requires BytesOk(s.used, s.live) && PageSumOk(c, s.list, |s.zones|, s.live) && a in s.live && s.live[a].Small?
    ensures BytesOk(s.used - s.live[a].chunk, s.live - {a}) && PageSumOk(c, s.list, |s.zones|, s.live - {a})
  {
    TotalPick(s.live, a, false);
    TotalPick(s.live, a, true);
  }

  // ----- zones come and go -----

  /** A zone's worth of pages joins the cache; the fields of a cached zone mean nothing yet. */
  ghost function Acquire(c: Config, s: State, p: int, rest: seq<Run>, any: Zone): State {
    s.(list := rest, usage := SmallUsage(s.usage, p, c.ZonePages()), own := Marked(s.own, p, c.ZonePages(), InZone(p)),
       zones := s.zones[p := any], cache := [p] + s.cache)
  }

  lemma AcquireOk(c: Config, s: State, p: int, rest: seq<Run>, any: Zone)
    requires Core(c, s) && c.ZonePages() > 0 && Take(s.list, c.ZonePages()) == Taken(p, rest)
    ensures Core(c, Acquire(c, s, p, rest, any)) && p !in s.zones
  {
    hide PagesOk, ZonePagesOk, TableOk, LargesOk, SmallsOk, NoLeak, ListsOk, ZonesOk, Marked, SmallUsage, Take, BytesOk,
        PageSumOk;
    AcquirePages(c, s, p, rest);
    AcquireLists(c, s.ary, s.zones, s.cache, s.live, p, any);
    AcquireSums(c, s, p, rest, any);
    assert s.zones[p := any].Keys == s.zones.Keys + {p};
  }

  lemma AcquirePages(c: Config, s: State, p: int, rest: seq<Run>)
    requires PagesOk(c, s.list, s.own, s.usage) && ZonePagesOk(c, s.zones.Keys, s.own, s.usage) && TableOk(c, s.own)
    requires LargesOk(s.live, s.own, s.usage)
    requires c.ZonePages() > 0 && Take(s.list, c.ZonePages()) == Taken(p, rest)
    ensures var own, usage := Marked(s.own, p, c.ZonePages(), InZone(p)), SmallUsage(s.usage, p, c.ZonePages());
            && PagesOk(c, rest, own, usage) && ZonePagesOk(c, s.zones.Keys + {p}, own, usage) && TableOk(c, own)
            && LargesOk(s.live, own, usage) && p !in s.zones
  {
    hide PagesOk, ZonePagesOk, TableOk, LargesOk, Marked, SmallUsage, Take;
    var n := c.ZonePages();
    var usage := SmallUsage(s.usage, p, n);
    SmallUsageIs(s.usage, p, n);
    TakenPages(c, s.list, s.own, s.usage, n);
    NotZone(c, s.zones.Keys, s.own, s.usage, p);
    TakeKeepsPages(c, s.list, s.own, s.usage, n, InZone(p), usage);
    MarkKeepsZones(c, s.zones.Keys, s.own, s.usage, p, n, InZone(p), usage);
    MarkKeepsLarges(s.live, s.own, s.usage, p, n, InZone(p), usage);
    MarkKeepsTable(c, s.own, p, n, InZone(p));
    AcquireSpan(c, s.list, s.zones.Keys, s.own, s.usage, p);
  }

  lemma SmallUsageIs(usage: map<int, Usage>, p: int, n: int)
    ensures SmallUsage(usage, p, n).Keys == usage.Keys
    ensures forall q :: q in usage && !(p <= q < p + n) ==> SmallUsage(usage, p, n)[q] == usage[q]
  {
  }

  lemma NotZone(c: Config, zs: set<int>, own: map<int, Owner>, usage: map<int, Usage>, p: int)
    requires ZonePagesOk(c, zs, own, usage) && c.ZonePages() > 0 && p in own && own[p] == Nobody
    ensures p !in zs
  {
    assert p in zs ==> ZoneSpan(c, p, own, usage);
  }

  lemma AcquireSpan(c: Config, list: seq<Run>, zs: set<int>, own: map<int, Owner>, usage: map<int, Usage>, p: int)
    requires PagesOk(c, list, own, usage)
    requires ZonePagesOk(c, zs, Marked(own, p, c.ZonePages(), InZone(p)), SmallUsage(usage, p, c.ZonePages()))
    requires forall q :: p <= q < p + c.ZonePages() ==> q in own
    ensures ZonePagesOk(c, zs + {p}, Marked(own, p, c.ZonePages(), InZone(p)), SmallUsage(usage, p, c.ZonePages()))
  {
  }

  lemma AcquireLists(c: Config, ary: seq<seq<int>>, zones: map<int, Zone>, cache: seq<int>, live: map<int, Block>,
      p: int, any: Zone)
    requires ListsOk(ary, zones, cache) && ZonesOk(c, zones, cache) && SmallsOk(live, zones, cache)
    requires NoLeak(live, zones, cache) && p !in zones
    ensures ListsOk(ary, zones[p := any], [p] + cache) && ZonesOk(c, zones[p := any], [p] + cache)
    ensures SmallsOk(live, zones[p := any], [p] + cache) && NoLeak(live, zones[p := any], [p] + cache)
  {
    var zones', cache' := zones[p := any], [p] + cache;
    assert forall z :: z in cache' <==> z == p || z in cache;
    assert p !in cache;
    forall a | a in live && live[a].Small? ensures SmallOk(a, live[a], zones', cache') {
      assert SmallOk(a, live[a], zones, cache);
    }
  }

  lemma AcquireSums(c: Config, s: State, p: int, rest: seq<Run>, any: Zone)
    requires PageSumOk(c, s.list, |s.zones|, s.live) && c.ZonePages() > 0
    requires Take(s.list, c.ZonePages()) == Taken(p, rest) && p !in s.zones
    ensures PageSumOk(c, rest, |s.zones[p := any]|, s.live)
  {
    TakeCount(s.list, c.ZonePages());
    assert |s.zones[p := any]| == |s.zones| + 1 by {
      assert s.zones[p := any].Keys == s.zones.Keys + {p};
    }
    assert c.ZonePages() * (|s.zones| + 1) == c.ZonePages() * |s.zones| + c.ZonePages();
  }

  /** The first cached zone becomes an active zone of index `zi`. */
  lemma OpenZoneOk(c: Config, s: State, size: int, n: nat)
    requires Core(c, s) && s.cache != [] && 1 <= n < LimitOf(c.zoneSize) && size <= ZoneIndex(n).chunk
    requires c.zoneSize == c.ZonePages() * PAGE_SIZE
    ensures ZoneIndex(n).chunk > 0 && 0 <= ZoneIndex(n).index < NZONES
    ensures var k := ZoneIndex(n);
            var r := OpenZone(c, s.(cache := s.cache[1..]), s.cache[0], size, k.index, k.chunk);
            Core(c, r.state) && r.ptr !in s.live
  {
    hide PagesOk, ZonePagesOk, TableOk, LargesOk, SmallsOk, NoLeak, ListsOk, ZonesOk, BytesOk, PageSumOk, ZoneIndex;
    ZoneIndexFits(n);
    ZoneHolds(c.zoneSize, n);
    var k := ZoneIndex(n);
    var z := s.cache[0];
    var zone := NewZone(c.zoneSize, z, k.index, k.chunk);
    assert ZoneShape(c, z, zone);
    NewZoneOk(c, z, zone);
    OpenLists(c, s.ary, s.zones, s.cache, zone);
    hide ZoneOk, ZoneShape, NewZone;
    OpenNotLive(c, s, z, zone);
    OpenSmalls(s.live, s.zones, s.cache, zone, size);
    AddSmall(s.live, zone.base, Small(size, z, k.chunk), s.own, s.usage);
    AddSums(c, s, zone.base, Small(size, z, k.chunk));
    assert s.zones[z := zone].Keys == s.zones.Keys;
  }

  lemma NewZoneOk(c: Config, z: int, zone: Zone)
    requires ZoneShape(c, z, zone) && zone.uindex == 0 && zone.chunks == [] && zone.nfree == zone.nmax - 1
    ensures ZoneOk(c, z, zone) && OnGrid(zone, zone.base) && zone.nfree > 0
  {
    assert zone.base == ChunkAt(zone, 0);
  }

  lemma OpenNotLive(c: Config, s: State, z: int, zone: Zone)
    requires Core(c, s) && z in s.cache && ZoneOk(c, z, zone) && OnGrid(zone, zone.base)
    requires z in s.zones
    ensures zone.base !in s.live
  {
    if zone.base in s.live {
      ChunkOwner(c, s, z, zone, zone.base);
    }
  }

  lemma OpenLists(c: Config, ary: seq<seq<int>>, zones: map<int, Zone>, cache: seq<int>, zone: Zone)
    requires ListsOk(ary, zones, cache) && ZonesOk(c, zones, cache) && cache != []
    requires ZoneOk(c, cache[0], zone) && zone.nfree > 0
    ensures cache[0] in zones && cache[0] !in cache[1..]
    ensures ListsOk(ary[zone.index := [cache[0]] + ary[zone.index]], zones[cache[0] := zone], cache[1..])
    ensures ZonesOk(c, zones[cache[0] := zone], cache[1..])
  {
    hide ZoneOk;
    var z, i := cache[0], zone.index;
    assert 0 <= i < NZONES by { ZoneIndexRange(c, z, zone); }
    assert z in cache && z !in cache[1..];
    assert forall y :: y in cache <==> y == z || y in cache[1..];
    assert z !in ary[i];
    assert NoDup([z] + ary[i]);
    assert forall y :: y in [z] + ary[i] <==> y == z || y in ary[i];
  }

  lemma ZoneIndexRange(c: Config, z: int, zone: Zone)
    requires ZoneOk(c, z, zone)
    ensures 0 <= zone.index < NZONES
  {
  }

  lemma OpenSmalls(live: map<int, Block>, zones: map<int, Zone>, cache: seq<int>, zone: Zone, size: int)
    requires SmallsOk(live, zones, cache) && NoLeak(live, zones, cache) && cache != [] && cache[0] !in cache[1..]
    requires zone.base !in live
    requires size <= zone.chunk && OnGrid(zone, zone.base) && zone.chunks == [] && zone.uindex == 0
    ensures SmallsOk(live[zone.base := Small(size, cache[0], zone.chunk)], zones[cache[0] := zone], cache[1..])
    ensures NoLeak(live[zone.base := Small(size, cache[0], zone.chunk)], zones[cache[0] := zone], cache[1..])
  {
    assert forall b :: OnGrid(zone, b) ==> b == zone.base;
    hide OnGrid;
    var z := cache[0];
    var live', zones' := live[zone.base := Small(size, z, zone.chunk)], zones[z := zone];
    forall b | b in live' && live'[b].Small? ensures SmallOk(b, live'[b], zones', cache[1..]) {
      if b != zone.base {
        assert SmallOk(b, live[b], zones, cache);
        assert z in cache;
      }
    }
  }

  ghost function ToCache(s: State, z: int): State
    requires z in s.zones && 0 <= s.zones[z].index < |s.ary|
  {
    var i := s.zones[z].index;
    s.(ary := s.ary[i := Without(s.ary[i], z)], cache := [z] + s.cache)
  }

  /** An idle zone has no live chunk, so it can leave its list. */
  lemma ToCacheOk(c: Config, s: State, z: int)
    requires Core(c, s) && z in s.zones && z !in s.cache && 0 <= s.zones[z].index < NZONES
    requires s.zones[z].nfree == s.zones[z].nmax
    ensures Core(c, ToCache(s, z))
  {
    hide PagesOk, ZonePagesOk, TableOk, LargesOk, BytesOk, PageSumOk;
    var cache := [z] + s.cache;
    assert forall y :: y in cache <==> y == z || y in s.cache;
    forall a | a in s.live && s.live[a].Small? ensures SmallOk(a, s.live[a], s.zones, cache) {
      assert SmallOk(a, s.live[a], s.zones, s.cache);
      assert ZoneOk(c, z, s.zones[z]);
      ZoneFull(c, z, s.zones[z], a);
    }
    ToCacheLists(s.ary, s.zones, s.cache, z);
  }

  lemma {:induction false} WithoutIs(l: seq<int>, z: int)
    requires NoDup(l)
    ensures NoDup(Without(l, z)) && forall y :: y in Without(l, z) <==> y in l && y != z
  {
    if l != [] {
      assert NoDup(l[1..]);
      assert l == [l[0]] + l[1..];
      WithoutIs(l[1..], z);
      assert l[0] !in l[1..];
      if l[0] != z {
        var r := Without(l[1..], z);
        assert NoDup([l[0]] + r);
        assert forall y :: y in [l[0]] + r <==> y == l[0] || y in r;
      }
    }
  }

  lemma ToCacheLists(ary: seq<seq<int>>, zones: map<int, Zone>, cache: seq<int>, z: int)
    requires ListsOk(ary, zones, cache) && z in zones && z !in cache && 0 <= zones[z].index < NZONES
    ensures ListsOk(ary[zones[z].index := Without(ary[zones[z].index], z)], zones, [z] + cache)
  {
    var i := zones[z].index;
    var cache' := [z] + cache;
    WithoutIs(ary[i], z);
    assert forall y :: y in cache' <==> y == z || y in cache;
    assert NoDup(cache');
  }

  /** The first cached zone gives its pages back. */
  ghost function Release(c: Config, s: State): State
    requires s.cache != []
  {
    var z := s.cache[0];
    s.(cache := s.cache[1..], usage := FreeUsage(s.usage, z, c.ZonePages()), list := Give(s.list, z, c.ZonePages()),
       zones := s.zones - {z}, own := Marked(s.own, z, c.ZonePages(), Nobody))
  }

  lemma ReleaseOk(c: Config, s: State)
    requires Core(c, s) && s.cache != [] && c.ZonePages() > 0
    ensures Core(c, Release(c, s))
  {
    hide PagesOk, ZonePagesOk, TableOk, LargesOk, SmallsOk, NoLeak, ListsOk, ZonesOk, Marked, FreeUsage, Give, BytesOk,
        PageSumOk;
    var z := s.cache[0];
    ReleaseLists(c, s.ary, s.zones, s.cache, s.live);
    ReleasePages(c, s, z);
    ReleaseSums(c, s, z);
    assert (s.zones - {z}).Keys == s.zones.Keys - {z};
  }

  lemma ReleasePages(c: Config, s: State, z: int)
    requires PagesOk(c, s.list, s.own, s.usage) && ZonePagesOk(c, s.zones.Keys, s.own, s.usage) && TableOk(c, s.own)
    requires LargesOk(s.live, s.own, s.usage)
    requires c.ZonePages() > 0 && z in s.zones
    ensures var own, usage := Marked(s.own, z, c.ZonePages(), Nobody), FreeUsage(s.usage, z, c.ZonePages());
            && PagesOk(c, Give(s.list, z, c.ZonePages()), own, usage) && ZonePagesOk(c, s.zones.Keys - {z}, own, usage)
                && TableOk(c, own)
            && LargesOk(s.live, own, usage)
  {
    var n := c.ZonePages();
    var usage := FreeUsage(s.usage, z, n);
    assert ZoneSpan(c, z, s.own, s.usage);
    hide PagesOk, TableOk, LargesOk, Marked, Give;
    GiveKeepsPages(c, s.list, s.own, s.usage, z, n, usage);
    MarkKeepsZones(c, s.zones.Keys - {z}, s.own, s.usage, z, n, Nobody, usage);
    MarkKeepsLarges(s.live, s.own, s.usage, z, n, Nobody, usage);
    MarkKeepsTable(c, s.own, z, n, Nobody);
  }

  lemma ReleaseLists(c: Config, ary: seq<seq<int>>, zones: map<int, Zone>, cache: seq<int>, live: map<int, Block>)
    requires ListsOk(ary, zones, cache) && ZonesOk(c, zones, cache) && SmallsOk(live, zones, cache)
    requires NoLeak(live, zones, cache) && cache != []
    ensures cache[0] in zones
    ensures var z := cache[0];
            && ListsOk(ary, zones - {z}, cache[1..]) && ZonesOk(c, zones - {z}, cache[1..])
                && SmallsOk(live, zones - {z}, cache[1..])
            && NoLeak(live, zones - {z}, cache[1..])
  {
    var z := cache[0];
    assert z in cache && z !in cache[1..];
    assert forall y :: y in cache <==> y == z || y in cache[1..];
    forall a | a in live && live[a].Small? ensures SmallOk(a, live[a], zones - {z}, cache[1..]) {
      assert SmallOk(a, live[a], zones, cache);
    }
  }

  lemma ReleaseSums(c: Config, s: State, z: int)
    requires PageSumOk(c, s.list, |s.zones|, s.live) && z in s.zones
    ensures PageSumOk(c, Give(s.list, z, c.ZonePages()), |s.zones - {z}|, s.live)
  {
    GiveCount(s.list, z, c.ZonePages());
    assert |s.zones - {z}| == |s.zones| - 1 by {
      assert (s.zones - {z}).Keys == s.zones.Keys - {z};
    }
    assert c.ZonePages() * (|s.zones| - 1) == c.ZonePages() * |s.zones| - c.ZonePages();
  }

  // ----- kmalloc and kfree -----

  lemma ZonePagesIs(c: Config)
    requires c.Valid()
    ensures c.ZonePages() >= 8 && c.zoneSize == c.ZonePages() * PAGE_SIZE
  {
  }

  lemma LargeBytesIs(size: int)
    requires 0 < size < 0x1_0000_0000
    ensures var n := LargeBytes(size) / PAGE_SIZE;
            && n * PAGE_SIZE == LargeBytes(size) && n >= 0
            && (n > 0 ==> size <= n * PAGE_SIZE < size + PAGE_SIZE)
            && (n <= 0 <==> size > 0x1_0000_0000 - PAGE_SIZE)
  {
  }

  /** What kmalloc gives out: the block is new, big enough, and everything else is as before. */
  ghost predicate Granted(s: State, s': State, ptr: int, size: int) {
    && ptr > 0 && ptr !in s.live && ptr in s'.live && s'.live == s.live[ptr := s'.live[ptr]]
    && s'.live[ptr].size == size
  }

  /** When kmalloc has nothing to give. */
  ghost predicate Refused(c: Config, s: State, size: int)
    requires |s.ary| == NZONES && c.Valid() && 0 <= size
  {
    || size == 0
    || (size >= LimitOf(c.zoneSize) && (size > 0x1_0000_0000 - PAGE_SIZE
        || Take(s.list, LargeBytes(size) / PAGE_SIZE).NoPages?))
    || (0 < size < LimitOf(c.zoneSize) && s.ary[SizeClassOf(size)] == [] && s.cache == []
        && Take(s.list, c.ZonePages()).NoPages?)
  }

  function SizeClassOf(size: int): (i: int)
    requires 1 <= size < ZONE_LIMIT
    ensures 0 <= i < NZONES
  {
    ZoneIndexFits(size);
    ZoneIndex(size).index
  }

  lemma PeakOk(c: Config, s: State)
    requires Core(c, s)
    ensures Core(c, Peak(s)) && Peak(s).used <= Peak(s).peak
  {
  }

  lemma LiveHigh(c: Config, s: State, a: int)
    requires Core(c, s) && a in s.live
    ensures a > 0
  {
    LiveOwner(c, s, a);
  }

  lemma MallocLargeOk(c: Config, s: State, size: int)
    requires Inv(c, s) && LimitOf(c.zoneSize) <= size < 0x1_0000_0000
    ensures |s.ary| == NZONES
    ensures var r := MallocLarge(s, size);
            && Inv(c, r.state) && (r.ptr == 0 <==> Refused(c, s, size))
            && if r.ptr == 0 then r.state == s else Granted(s, r.state, r.ptr, size)
  {
    hide Core, LargeBytes, Take, HoldLarge, Inv, Granted;
    InvCore(c, s);
    LargeBytesIs(size);
    var n := LargeBytes(size) / PAGE_SIZE;
    if n > 0 && Take(s.list, n).Taken? {
      HoldOk(c, s, size, n);
    }
  }

  lemma InvCore(c: Config, s: State)
    requires Inv(c, s)
    ensures Core(c, s) && |s.ary| == NZONES && c.Valid()
  {
  }

  lemma HoldOk(c: Config, s: State, size: int, n: int)
    requires Inv(c, s) && n > 0 && size <= n * PAGE_SIZE && Take(s.list, n).Taken?
    ensures var t := Take(s.list, n); var s' := Peak(HoldLarge(s, size, n, t.page, t.rest));
            t.page > 0 && Inv(c, s') && Granted(s, s', t.page * PAGE_SIZE, size)
  {
    hide Core, Take, HoldLarge;
    HoldLargeOk(c, s, size, n);
    var t := Take(s.list, n);
    var s' := HoldLarge(s, size, n, t.page, t.rest);
    PeakOk(c, s');
    HoldLargeIs(s, size, n, t.page, t.rest);
  }

  lemma HoldLargeIs(s: State, size: int, n: int, p: int, rest: seq<Run>)
    ensures HoldLarge(s, size, n, p, rest).live == s.live[p * PAGE_SIZE := Large(size, n)]
    ensures HoldLarge(s, size, n, p, rest).cache == s.cache
  {
  }

  lemma ListsSize(c: Config, s: State)
    requires Core(c, s)
    ensures |s.ary| == NZONES && c.Valid()
    ensures forall i :: 0 <= i < |s.ary| && s.ary[i] != [] ==> s.ary[i][0] in s.zones
  {
    assert |s.ary| == NZONES && c.Valid();
    hide PagesOk, ZonePagesOk, TableOk, LargesOk, SmallsOk, NoLeak, ListsOk, ZonesOk, BytesOk, PageSumOk;
    forall i | 0 <= i < |s.ary| && s.ary[i] != [] ensures s.ary[i][0] in s.zones {
      HeadListed(s.ary, s.zones, s.cache, i);
    }
  }

  /** Opening a zone on fresh pages is acquiring it into the cache and opening it from there. */
  lemma OpenFresh(c: Config, s: State, p: int, rest: seq<Run>, any: Zone, size: int, zi: int, chunk: int)
    requires chunk > 0 && 0 <= zi < |s.ary| && s.cache == []
    ensures var s' := Acquire(c, s, p, rest, any);
            OpenZone(c, s'.(cache := s'.cache[1..]), p, size, zi, chunk)
            == OpenZone(c, s.(list := rest, usage := SmallUsage(s.usage, p, c.ZonePages()),
                own := Marked(s.own, p, c.ZonePages(), InZone(p))), p, size, zi, chunk)
  {
    var zone := NewZone(c.zoneSize, p, zi, chunk);
    assert ([p] + s.cache)[1..] == [];
    assert s.zones[p := any][p := zone] == s.zones[p := zone];
  }

  lemma MallocNewOk(c: Config, s: State, size: int)
    requires Inv(c, s) && 1 <= size < LimitOf(c.zoneSize)
    requires |s.ary| == NZONES && s.ary[SizeClassOf(size)] == []
    ensures ZoneIndex(size).chunk > 0 && c.ZonePages() > 0
    ensures var r := MallocNew(c, s, size, SizeClassOf(size), ZoneIndex(size).chunk);
            && Inv(c, r.state) && (r.ptr == 0 <==> Refused(c, s, size))
            && if r.ptr == 0 then r.state == s else Granted(s, r.state, r.ptr, size)
  {
    hide Core, ZoneIndex, Take, NewZone, Marked, SmallUsage;
    ListsSize(c, s);
    ZonePagesIs(c);
    ZoneIndexFits(size);
    var k := ZoneIndex(size);
    if s.cache != [] {
      OpenZoneOk(c, s, size, size);
      var r := OpenZone(c, s.(cache := s.cache[1..]), s.cache[0], size, k.index, k.chunk);
      LiveHigh(c, r.state, r.ptr);
    } else if Take(s.list, c.ZonePages()).Taken? {
      var t := Take(s.list, c.ZonePages());
      var any := NewZone(c.zoneSize, t.page, k.index, k.chunk);
      AcquireOk(c, s, t.page, t.rest, any);
      var s' := Acquire(c, s, t.page, t.rest, any);
      OpenFresh(c, s, t.page, t.rest, any, size, k.index, k.chunk);
      OpenZoneOk(c, s', size, size);
      var r := OpenZone(c, s'.(cache := s'.cache[1..]), s'.cache[0], size, k.index, k.chunk);
      LiveHigh(c, r.state, r.ptr);
    }
  }

  lemma MallocListedOk(c: Config, s: State, size: int)
    requires Inv(c, s) && 1 <= size < LimitOf(c.zoneSize)
    requires |s.ary| == NZONES && s.ary[SizeClassOf(size)] != [] && s.ary[SizeClassOf(size)][0] in s.zones
    ensures var r := MallocZone(s, size, SizeClassOf(size), ZoneIndex(size).chunk);
            Inv(c, r.state) && Granted(s, r.state, r.ptr, size)
  {
    hide Core, ZoneIndex;
    ListsSize(c, s);
    ZoneIndexFits(size);
    var k := ZoneIndex(size);
    MallocZoneOk(c, s, size, k.index, k.chunk);
    var r := MallocZone(s, size, k.index, k.chunk);
    LiveHigh(c, r.state, r.ptr);
  }

  /** kmalloc keeps the invariant, fails only when it must, and otherwise gives out a new block. */
  lemma MallocOk(c: Config, s: State, size: int)
    requires Inv(c, s) && 0 <= size < 0x1_0000_0000
    ensures |s.ary| == NZONES && forall i :: 0 <= i < |s.ary| && s.ary[i] != [] ==> s.ary[i][0] in s.zones
    ensures var r := Malloc(c, s, size);
            && Inv(c, r.state) && (r.ptr == 0 <==> Refused(c, s, size))
            && if r.ptr == 0 then r.state == s else Granted(s, r.state, r.ptr, size)
  {
    ListsSize(c, s);
    hide Inv, Core, MallocLarge, MallocZone, MallocNew;
    if size == 0 {
    } else if size >= LimitOf(c.zoneSize) {
      MallocLargeOk(c, s, size);
    } else if s.ary[SizeClassOf(size)] != [] {
      MallocListedOk(c, s, size);
    } else {
      MallocNewOk(c, s, size);
    }
  }

  /** Moving an idle zone out of its list, into the cache or back to the pages. */
  lemma RetireOk(c: Config, s: State, z: int)
    requires Core(c, s) && |s.cache| <= 2 && z in s.zones && z !in s.cache && 0 <= s.zones[z].index < NZONES
    ensures |s.ary| == NZONES && Core(c, Retire(c, s, z)) && |Retire(c, s, z).cache| <= 2
    ensures Retire(c, s, z).live == s.live && Retire(c, s, z).used == s.used && Retire(c, s, z).peak == s.peak
  {
    ListsSize(c, s);
    ZonePagesIs(c);
    hide Core, Marked, FreeUsage, Give, Without;
    var zone := s.zones[z];
    if zone.nfree == zone.nmax && s.ary[zone.index] != [z] {
      ToCacheOk(c, s, z);
      if |s.cache| + 1 > 2 {
        var s' := ToCache(s, z);
        ReleaseOk(c, s');
        assert ([z] + s.cache)[1..] == s.cache;
        assert Release(c, s') == Retire(c, s, z);
      }
    }
  }

  /** The usage table leads kfree back to the block. */
  lemma UsageOf(c: Config, s: State, a: int)
    requires Core(c, s) && a in s.live
    ensures a > 0 && a / PAGE_SIZE in s.usage
    ensures match s.live[a]
            case Small(_, z, _) => s.usage[a / PAGE_SIZE] == Usage(SMALL, a / PAGE_SIZE - z)
            case Large(_, n) => s.usage[a / PAGE_SIZE] == Usage(LARGE, n)
  {
    LiveHigh(c, s, a);
    hide PagesOk, TableOk, ListsOk, BytesOk, PageSumOk;
    match s.live[a]
    case Small(_, z, _) =>
      assert SmallOk(a, s.live[a], s.zones, s.cache);
      assert ZoneOk(c, z, s.zones[z]) && ZoneSpan(c, z, s.own, s.usage);
      ChunkInside(c, z, s.zones[z], a);
    case Large(size, n) =>
      assert LargeOk(a, size, n, s.own, s.usage);
  }

  /** kfree of a live block keeps the invariant and takes back exactly that block. */
  lemma FreeOk(c: Config, s: State, a: int)
    requires Inv(c, s) && (a == 0 || a in s.live)
    ensures a != 0 ==> a / PAGE_SIZE in s.usage
    ensures a != 0 && s.usage[a / PAGE_SIZE].kind != LARGE ==>
              var z := a / PAGE_SIZE - s.usage[a / PAGE_SIZE].size; z in s.zones && 0 <= s.zones[z].index < |s.ary|
    ensures Inv(c, FreeBlock(c, s, a)) && FreeBlock(c, s, a).live == s.live - {a}
  {
    hide Inv, Core, Retire, PutChunk, FreeLarge;
    InvCore(c, s);
    if a == 0 {
      NullNotLive(c, s);
    } else {
      UsageOf(c, s, a);
      if s.live[a].Small? {
        FreeSmallOk(c, s, a);
      } else {
        FreeLargeInv(c, s, a);
      }
    }
  }

  lemma NullNotLive(c: Config, s: State)
    requires Core(c, s)
    ensures 0 !in s.live && s.live - {0} == s.live
  {
    if 0 in s.live { LiveHigh(c, s, 0); }
  }

  lemma FreeSmallOk(c: Config, s: State, a: int)
    requires Inv(c, s) && a in s.live && s.live[a].Small?
    ensures var z := s.live[a].zone;
            && |s.ary| == NZONES && z in s.zones && 0 <= s.zones[z].index < NZONES
            && PutChunk(s, a, z).zones.Keys == s.zones.Keys && PutChunk(s, a, z).zones[z].index == s.zones[z].index
            && |PutChunk(s, a, z).ary| == NZONES
            && Inv(c, Retire(c, PutChunk(s, a, z), z)) && Retire(c, PutChunk(s, a, z), z).live == s.live - {a}
  {
    ListsSize(c, s);
    PutChunkOk(c, s, a);
    var z := s.live[a].zone;
    PutChunkIs(c, s, a, z);
    hide Core, Retire, PutChunk;
    RetireOk(c, PutChunk(s, a, z), z);
  }

  lemma FreeLargeInv(c: Config, s: State, a: int)
    requires Inv(c, s) && a in s.live && s.live[a].Large?
    ensures Inv(c, FreeLarge(s, a, s.live[a].count)) && FreeLarge(s, a, s.live[a].count).live == s.live - {a}
  {
    LargePages(s.live, a, s.own, s.usage);
    hide Core;
    FreeLargeOk(c, s, a, s.live[a].count);
    FreeLargeIs(s, a);
  }

  lemma FreeLargeIs(s: State, a: int)
    requires a in s.live && s.live[a].Large? && s.live[a].count >= 0
    ensures var s' := FreeLarge(s, a, s.live[a].count);
            s'.live == s.live - {a} && s'.cache == s.cache
            && s'.used <= s.used && s'.peak == s.peak
  {
  }

  lemma PutChunkIs(c: Config, s: State, a: int, z: int)
    requires Core(c, s) && z in s.zones && 0 <= s.zones[z].index < |s.ary| && z !in s.cache
    ensures var s' := PutChunk(s, a, z);
              && s'.live == s.live - {a} && s'.cache == s.cache && s'.used <= s.used && s'.peak == s.peak
              && s'.zones.Keys == s.zones.Keys && |s'.ary| == |s.ary|
  {
    assert ZoneOk(c, z, s.zones[z]);
  }

  /** The pages of a large block can go back to the page list. */
  lemma LargeFreeable(c: Config, s: State, a: int)
    requires Inv(c, s) && a in s.live && s.live[a].Large?
    ensures var p, n := a / PAGE_SIZE, s.live[a].count;
            Canonical(s.list) && p > 0 && n > 0 && Span(p, n) !! Pages.Free(s.list)
  {
    LiveHigh(c, s, a);
    LargePages(s.live, a, s.own, s.usage);
    var p, n := a / PAGE_SIZE, s.live[a].count;
    GiveKeepsPages(c, s.list, s.own, s.usage, p, n, s.usage);
  }

  /** So can the pages of a zone. */
  lemma ZoneFreeable(c: Config, s: State, z: int)
    requires Core(c, s) && z in s.zones
    ensures z > 0 && c.ZonePages() > 0 && Canonical(s.list) && Span(z, c.ZonePages()) !! Pages.Free(s.list)
    ensures forall p :: z <= p < z + c.ZonePages() ==> p in s.usage
  {
    ZonePagesIs(c);
    assert ZoneSpan(c, z, s.own, s.usage);
    assert z in s.own;
    GiveKeepsPages(c, s.list, s.own, s.usage, z, c.ZonePages(), s.usage);
  }
}
