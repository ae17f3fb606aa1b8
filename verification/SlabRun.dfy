/**
 What callers of kmalloc and kfree can rely on after any run: their blocks are theirs alone.
 */
module SlabRun {
  import opened Arith
  import opened Pages
  import opened SizeClass
  import opened Slab
  import opened SlabInv

  // ----- safety of one state -----

  /** The bytes reserved for a block. */
  function Reserved(b: Block): int {
    match b
    case Small(_, _, chunk) => chunk
    case Large(_, n) => n * PAGE_SIZE
  }

  predicate Covers(a: int, b: Block, x: int) {
    a <= x < a + Reserved(b)
  }

  /** No byte of a block is shared with another block, a zone header, a chunk on a free list, the usage table or a free
      page. */
  ghost predicate Safe(c: Config, s: State) {
    && (forall a :: a in s.live ==> 0 < a && s.live[a].size <= Reserved(s.live[a]))
    && (forall a, b, x :: a in s.live && b in s.live && Covers(a, s.live[a], x) && Covers(b, s.live[b], x) ==> a == b)
    && (forall a, z, x :: a in s.live && z in s.zones && Covers(a, s.live[a], x) && InHeader(z, x) ==> false)
    && (forall a, z, x :: a in s.live && Active(s, z) && Covers(a, s.live[a], x) ==> !InFreeChunk(s.zones[z], x))
    && (forall a, x :: a in s.live && Covers(a, s.live[a], x) ==> ForBlocks(c, s.list, x / PAGE_SIZE))
  }

  predicate InHeader(z: int, x: int) {
    z * PAGE_SIZE <= x < z * PAGE_SIZE + HEADER
  }

  ghost predicate Active(s: State, z: int) {
    z in s.zones && z !in s.cache
  }

  /** A byte of a chunk on the zone's list of free chunks, whose first word links to the next one. */
  ghost predicate InFreeChunk(zone: Zone, x: int) {
    exists f :: f in zone.chunks && f <= x < f + zone.chunk
  }

  /** A heap page that is neither free nor part of the usage table. */
  ghost predicate ForBlocks(c: Config, list: seq<Run>, p: int) {
    c.start <= p < c.start + c.pages && !(c.table <= p < c.table + c.tablePages) && p !in Pages.Free(list)
  }

  function OwnerOf(a: int, b: Block): Owner {
    match b
    case Small(_, z, _) => InZone(z)
    case Large(_, _) => InBlock(a / PAGE_SIZE)
  }

  /** Every byte of a block lies in a page of the block's owner. */
  lemma ByteOwner(c: Config, s: State, a: int, x: int)
    requires Core(c, s) && a in s.live && Covers(a, s.live[a], x)
    ensures x / PAGE_SIZE in s.own && s.own[x / PAGE_SIZE] == OwnerOf(a, s.live[a])
    ensures s.live[a].Small? ==> s.live[a].zone in s.zones && s.live[a].zone * PAGE_SIZE + HEADER <= a
  {
    match s.live[a]
    case Small(_, z, _) => SmallBytes(c, s, a, x);
    case Large(size, n) =>
      hide PagesOk, ZonePagesOk, TableOk, SmallsOk, NoLeak, ListsOk, ZonesOk, BytesOk, PageSumOk;
      LargePages(s.live, a, s.own, s.usage);
      assert a / PAGE_SIZE <= x / PAGE_SIZE < a / PAGE_SIZE + n;
  }

  lemma SmallBytes(c: Config, s: State, a: int, x: int)
    requires Core(c, s) && a in s.live && Covers(a, s.live[a], x) && s.live[a].Small?
    ensures x / PAGE_SIZE in s.own && s.own[x / PAGE_SIZE] == InZone(s.live[a].zone)
    ensures s.live[a].zone in s.zones && s.live[a].zone * PAGE_SIZE + HEADER <= a
  {
    hide PagesOk, TableOk, LargesOk, NoLeak, ListsOk, BytesOk, PageSumOk;
    var z := s.live[a].zone;
    assert SmallOk(a, s.live[a], s.zones, s.cache);
    assert ZoneOk(c, z, s.zones[z]) && ZoneSpan(c, z, s.own, s.usage);
    ZonePagesIs(c);
    ChunkInside(c, z, s.zones[z], a);
    assert z <= x / PAGE_SIZE < z + c.ZonePages();
  }

  lemma Disjoint(c: Config, s: State, a: int, b: int, x: int)
    requires Core(c, s) && a in s.live && b in s.live && Covers(a, s.live[a], x) && Covers(b, s.live[b], x)
    ensures a == b
  {
    ByteOwner(c, s, a, x);
    ByteOwner(c, s, b, x);
    hide PagesOk, ZonePagesOk, TableOk, NoLeak, ListsOk, BytesOk, PageSumOk;
    if a != b {
      if s.live[a].Large? {
        LargePages(s.live, a, s.own, s.usage);
        LargePages(s.live, b, s.own, s.usage);
      } else {
        assert SmallOk(a, s.live[a], s.zones, s.cache) && SmallOk(b, s.live[b], s.zones, s.cache);
        assert ZoneOk(c, s.live[a].zone, s.zones[s.live[a].zone]);
        ChunkApart(s.zones[s.live[a].zone], a, b);
      }
    }
  }

  lemma OffHeader(c: Config, s: State, a: int, z: int, x: int)
    requires Core(c, s) && a in s.live && z in s.zones && Covers(a, s.live[a], x)
    ensures !InHeader(z, x)
  {
    ByteOwner(c, s, a, x);
    hide PagesOk, TableOk, LargesOk, SmallsOk, ZonesOk, NoLeak, ListsOk, BytesOk, PageSumOk;
    ZonePagesIs(c);
    assert ZoneSpan(c, z, s.own, s.usage);
    HeaderPage(z, x);
    assert z in s.own && s.own[z] == InZone(z);
  }

  lemma OffFreeChunk(c: Config, s: State, a: int, z: int, x: int)
    requires Core(c, s) && a in s.live && Active(s, z) && Covers(a, s.live[a], x)
    ensures !InFreeChunk(s.zones[z], x)
  {
    ByteOwner(c, s, a, x);
    if InFreeChunk(s.zones[z], x) {
      var f :| f in s.zones[z].chunks && f <= x < f + s.zones[z].chunk;
      FreeChunkApart(c, s, a, z, f, x);
    }
  }

  lemma FreeChunkApart(c: Config, s: State, a: int, z: int, f: int, x: int)
    requires Core(c, s) && a in s.live && Active(s, z) && Covers(a, s.live[a], x) && f in s.zones[z].chunks
    requires x / PAGE_SIZE in s.own && s.own[x / PAGE_SIZE] == OwnerOf(a, s.live[a])
    ensures !(f <= x < f + s.zones[z].chunk)
  {
    hide PagesOk, TableOk, LargesOk, NoLeak, ListsOk, BytesOk, PageSumOk;
    assert ZoneOk(c, z, s.zones[z]) && ZoneSpan(c, z, s.own, s.usage);
    ZonePagesIs(c);
    ChunkInside(c, z, s.zones[z], f);
    if s.live[a].Small? && s.live[a].zone == z {
      assert SmallOk(a, s.live[a], s.zones, s.cache);
      ChunkApart(s.zones[z], a, f);
    }
  }

  lemma HeaderPage(z: int, x: int)
    ensures InHeader(z, x) ==> x / PAGE_SIZE == z
  {
  }

  lemma InHeap(c: Config, s: State, a: int, x: int)
    requires Core(c, s) && a in s.live && Covers(a, s.live[a], x)
    ensures ForBlocks(c, s.list, x / PAGE_SIZE)
  {
    ByteOwner(c, s, a, x);
  }

  lemma BlockSize(c: Config, s: State, a: int)
    requires Core(c, s) && a in s.live
    ensures 0 < a && s.live[a].size <= Reserved(s.live[a])
  {
    LiveHigh(c, s, a);
    if s.live[a].Small? {
      assert SmallOk(a, s.live[a], s.zones, s.cache);
    } else {
      assert LargeOk(a, s.live[a].size, s.live[a].count, s.own, s.usage);
    }
  }

  lemma InvSafe(c: Config, s: State)
    requires Inv(c, s)
    ensures Safe(c, s)
  {
    hide Core, Covers, InHeader, InFreeChunk, ForBlocks;
    forall a | a in s.live ensures 0 < a && s.live[a].size <= Reserved(s.live[a]) {
      BlockSize(c, s, a);
    }
    forall a, b, x | a in s.live && b in s.live && Covers(a, s.live[a], x) && Covers(b, s.live[b], x) ensures a == b {
      Disjoint(c, s, a, b, x);
    }
    forall a, z, x | a in s.live && z in s.zones && Covers(a, s.live[a], x) ensures !InHeader(z, x) {
      OffHeader(c, s, a, z, x);
    }
    forall a, z, x | a in s.live && Active(s, z) && Covers(a, s.live[a], x) ensures !InFreeChunk(s.zones[z], x) {
      OffFreeChunk(c, s, a, z, x);
    }
    forall a, x | a in s.live && Covers(a, s.live[a], x) ensures ForBlocks(c, s.list, x / PAGE_SIZE) {
      InHeap(c, s, a, x);
    }
  }

  /** The chunks of zone `z` in the hands of callers. */
  ghost function HeldOf(live: map<int, Block>, z: int): set<int> {
    set a | a in live && live[a].Small? && live[a].zone == z
  }

  /** An active zone accounts for every chunk: free and held ones together are all it has. */
  lemma ZoneCount(c: Config, s: State, z: int)
    requires Inv(c, s) && z in s.zones && z !in s.cache
    ensures s.zones[z].nfree + |HeldOf(s.live, z)| == s.zones[z].nmax
  {
    var zone := s.zones[z];
    assert ZoneOk(c, z, zone);
    var grid, held, free := GridSet(zone, zone.uindex + 1), HeldOf(s.live, z), Elems(zone.chunks);
    GridSize(zone, zone.uindex + 1);
    ElemsSize(zone.chunks);
    GridIs(zone, zone.uindex + 1);
    hide PagesOk, ZonePagesOk, TableOk, LargesOk, ListsOk, BytesOk, PageSumOk, GridSet, ZonesOk, ZoneOk;
    forall a | a in grid ensures a in held || a in free {
      assert OnGrid(zone, a);
      assert a !in zone.chunks ==> HeldIn(s.live, z, a);
    }
    forall a | a in held ensures a in grid && a !in free {
      assert SmallOk(a, s.live[a], s.zones, s.cache);
      var j :| 0 <= j <= zone.uindex && a == ChunkAt(zone, j);
    }
    FreeOnGrid(c, z, zone);
    assert grid == held + free;
    assert |held + free| == |held| + |free|;
    ZoneSum(c, z, zone);
  }

  lemma ZoneSum(c: Config, z: int, zone: Zone)
    requires ZoneOk(c, z, zone)
    ensures zone.nfree == (zone.nmax - 1 - zone.uindex) + |zone.chunks|
  {
  }

  lemma FreeOnGrid(c: Config, z: int, zone: Zone)
    requires ZoneOk(c, z, zone)
    ensures Elems(zone.chunks) <= GridSet(zone, zone.uindex + 1)
  {
  }

  lemma {:induction false} GridIs(zone: Zone, n: nat)
    requires zone.chunk > 0
    ensures forall a :: a in GridSet(zone, n) <==> exists j :: 0 <= j < n && a == ChunkAt(zone, j)
  {
    if n > 0 { GridIs(zone, n - 1); }
  }

  // ----- runs -----

  datatype Op = Kmalloc(size: int) | Kfree(ptr: int)

  /** kmalloc takes any 32-bit size; kfree takes NULL or a pointer that is live. */
  ghost predicate Legal(s: State, op: Op) {
    match op
    case Kmalloc(size) => 0 <= size < 0x1_0000_0000
    case Kfree(ptr) => ptr == 0 || ptr in s.live
  }

  ghost function Malloced(c: Config, s: State, size: int): (r: Outcome)
    requires Inv(c, s) && 0 <= size < 0x1_0000_0000
    ensures Inv(c, r.state)
  {
    MallocOk(c, s, size);
    Malloc(c, s, size)
  }

  ghost function Freed(c: Config, s: State, ptr: int): (s': State)
    requires Inv(c, s) && (ptr == 0 || ptr in s.live)
    ensures Inv(c, s')
  {
    FreeOk(c, s, ptr);
    FreeBlock(c, s, ptr)
  }

  ghost function Next(c: Config, s: State, op: Op): (s': State)
    requires Inv(c, s) && Legal(s, op)
    ensures Inv(c, s')
  {
    hide Inv;
    match op
    case Kmalloc(size) => Malloced(c, s, size).state
    case Kfree(ptr) => Freed(c, s, ptr)
  }

  ghost predicate LegalRun(c: Config, s: State, ops: seq<Op>)
    requires Inv(c, s)
    decreases |ops|
  {
    hide Inv, Next;
    ops == [] || (Legal(s, ops[0]) && LegalRun(c, Next(c, s, ops[0]), ops[1..]))
  }

  ghost function After(c: Config, s: State, ops: seq<Op>): (s': State)
    requires Inv(c, s) && LegalRun(c, s, ops)
    ensures Inv(c, s')
    decreases |ops|
  {
    hide Inv, Next;
    if ops == [] then s else After(c, Next(c, s, ops[0]), ops[1..])
  }

  /** Every active zone's free count is right, and it is listed exactly when it has a free chunk. */
  ghost predicate Accounted(s: State) {
    && |s.ary| == NZONES
    && forall z :: z in s.zones && z !in s.cache ==>
         var zone := s.zones[z];
         && zone.nfree == (zone.nmax - 1 - zone.uindex) + |zone.chunks| == zone.nmax - |HeldOf(s.live, z)|
         && 0 <= zone.index < NZONES && (z in s.ary[zone.index] <==> zone.nfree > 0)
         && forall i :: 0 <= i < NZONES && z in s.ary[i] ==> i == zone.index
  }

  lemma InvAccounted(c: Config, s: State)
    requires Inv(c, s)
    ensures Accounted(s)
  {
    forall z | z in s.zones && z !in s.cache ensures s.zones[z].nfree == s.zones[z].nmax - |HeldOf(s.live, z)| {
      ZoneCount(c, s, z);
    }
    hide PagesOk, ZonePagesOk, TableOk, LargesOk, SmallsOk, NoLeak, BytesOk, PageSumOk, HeldOf;
    forall z | z in s.zones && z !in s.cache ensures ZoneOk(c, z, s.zones[z]) {}
  }

  /** After any run the state is safe, every chunk, byte and page is accounted for, and `used_mem` has not wrapped. */
  lemma RunSafe(c: Config, s: State, ops: seq<Op>)
    requires Inv(c, s) && LegalRun(c, s, ops)
    ensures var s' := After(c, s, ops);
            && Safe(c, s') && Accounted(s')
            && s'.used == Total(s'.live, false) <= c.pages * PAGE_SIZE
            && Count(s'.list) + c.ZonePages() * |s'.zones| + Total(s'.live, true) + c.tablePages == c.pages
            && |s'.cache| <= 2
  {
    hide Safe, Accounted;
    var s' := After(c, s, ops);
    InvSafe(c, s');
    InvAccounted(c, s');
    UsedBound(c, s');
    hide PagesOk, ZonePagesOk, TableOk, LargesOk, SmallsOk, NoLeak, ListsOk, ZonesOk;
  }

  // ----- used_mem never exceeds the heap -----

  lemma {:induction false} DropHeld(live: map<int, Block>, held: set<int>, k: int)
    requires held <= live.Keys && forall a :: a in held ==> live[a].Small? && live[a].chunk == k
    ensures Total(live - held, false) == Total(live, false) - k * |held|
    ensures Total(live - held, true) == Total(live, true)
    decreases |held|
  {
    if |held| == 0 {
      assert held == {} && live - held == live;
    } else {
      var a := Pick(held);
      DropHeld(live, held - {a}, k);
      DropOne(live, held, a);
      assert k * |held| == k * |held - {a}| + k by {
        assert |held - {a}| == |held| - 1;
        Distribute(k, |held - {a}|);
      }
    }
  }

  lemma Pick<T>(s: set<T>) returns (a: T)
    requires |s| > 0
    ensures a in s
  {
    a :| a in s;
  }

  lemma Distribute(k: int, n: int)
    ensures k * (n + 1) == k * n + k
  {
  }

  lemma DropOne(live: map<int, Block>, held: set<int>, a: int)
    requires held <= live.Keys && a in held && live[a].Small?
    ensures Total(live - held, false) == Total(live - (held - {a}), false) - live[a].chunk
    ensures Total(live - held, true) == Total(live - (held - {a}), true)
  {
    var rest := live - (held - {a});
    TotalPick(rest, a, false);
    TotalPick(rest, a, true);
    assert rest - {a} == live - held;
  }

  lemma {:induction false} LargeOnly(live: map<int, Block>)
    requires forall a :: a in live ==> live[a].Large?
    ensures Total(live, false) == PAGE_SIZE * Total(live, true)
    decreases |live|
  {
    if a :| a in live {
      TotalPick(live, a, false);
      TotalPick(live, a, true);
      LargeOnly(live - {a});
    }
  }

  lemma {:induction false} BytesBound(live: map<int, Block>, zs: set<int>, chunk: map<int, int>, zoneSize: int)
    requires zs <= chunk.Keys
    requires forall a :: a in live && live[a].Small? ==> live[a].zone in zs && live[a].chunk == chunk[live[a].zone]
    requires forall z :: z in zs ==> chunk[z] * |HeldOf(live, z)| <= zoneSize
    ensures Total(live, false) <= PAGE_SIZE * Total(live, true) + zoneSize * |zs|
    decreases |zs|
  {
    if |zs| > 0 {
      var z := Pick(zs);
      var held := HeldOf(live, z);
      DropHeld(live, held, chunk[z]);
      var live' := live - held;
      forall y | y in zs - {z} ensures HeldOf(live', y) == HeldOf(live, y) {}
      BytesBound(live', zs - {z}, chunk, zoneSize);
      assert |zs - {z}| == |zs| - 1;
      Distribute(zoneSize, |zs - {z}|);
    } else {
      assert zs == {};
      LargeOnly(live);
    }
  }

  lemma UsedBound(c: Config, s: State)
    requires Inv(c, s)
    ensures s.used <= c.pages * PAGE_SIZE
  {
    hide PagesOk, ZonePagesOk, TableOk, LargesOk, SmallsOk, NoLeak, ListsOk, ZonesOk, HeldOf, Total, Count;
    HeldBytes(c, s);
    ZonePagesIs(c);
    CountPositive(c, s);
    assert c.zoneSize * |s.zones| == PAGE_SIZE * (c.ZonePages() * |s.zones|) by {
      MulAssoc(PAGE_SIZE, c.ZonePages(), |s.zones|);
    }
  }

  lemma MulAssoc(a: int, b: int, n: int)
    ensures (b * a) * n == a * (b * n)
  {
  }

  lemma HeldBytes(c: Config, s: State)
    requires Inv(c, s)
    ensures Total(s.live, false) <= PAGE_SIZE * Total(s.live, true) + c.zoneSize * |s.zones|
  {
    var zs := set z | z in s.zones && z !in s.cache;
    var chunk := map z | z in zs :: s.zones[z].chunk;
    SmallsIn(s, zs, chunk);
    ZonePagesIs(c);
    hide Core, HeldOf, Total;
    forall z | z in zs ensures chunk[z] * |HeldOf(s.live, z)| <= c.zoneSize {
      ZoneBytes(c, s, z);
    }
    BytesBound(s.live, zs, chunk, c.zoneSize);
    SubsetSize(zs, s.zones.Keys);
    assert c.zoneSize * |zs| <= c.zoneSize * |s.zones|;
  }

  lemma SmallsIn(s: State, zs: set<int>, chunk: map<int, int>)
    requires SmallsOk(s.live, s.zones, s.cache)
    requires forall z :: z in zs <==> z in s.zones && z !in s.cache
    requires chunk.Keys == zs && forall z :: z in zs ==> chunk[z] == s.zones[z].chunk
    ensures forall a :: a in s.live && s.live[a].Small? ==> s.live[a].zone in zs
                                                            && s.live[a].chunk == chunk[s.live[a].zone]
  {
    forall a | a in s.live && s.live[a].Small? ensures SmallOk(a, s.live[a], s.zones, s.cache) {}
  }

  lemma ZoneBytes(c: Config, s: State, z: int)
    requires Inv(c, s) && z in s.zones && z !in s.cache
    ensures s.zones[z].chunk * |HeldOf(s.live, z)| <= c.zoneSize
  {
    hide PagesOk, ZonePagesOk, TableOk, LargesOk, SmallsOk, NoLeak, ListsOk, BytesOk, PageSumOk, HeldOf;
    ZoneCount(c, s, z);
    assert ZoneOk(c, z, s.zones[z]);
    hide ZonesOk;
    ZoneRoom(c, z, s.zones[z], |HeldOf(s.live, z)|);
  }

  lemma ZoneRoom(c: Config, z: int, zone: Zone, n: nat)
    requires ZoneOk(c, z, zone) && n <= zone.nmax
    ensures zone.chunk * n <= c.zoneSize
  {
    hide Offset, MaxChunks, ChunkOf;
    RoomOf(zone.chunk, n, zone.nmax, Offset(zone.chunk), c.zoneSize);
  }

  lemma RoomOf(k: int, n: int, m: int, off: int, size: int)
    requires k > 0 && 0 <= n <= m && off >= 0 && off + m * k <= size
    ensures k * n <= size
  {
    assert n * k <= m * k;
  }

  lemma CountPositive(c: Config, s: State)
    requires Core(c, s)
    ensures Count(s.list) >= 0
  {
    CanonicalCount(s.list);
  }

  lemma {:induction false} CanonicalCount(l: seq<Run>)
    requires Canonical(l)
    ensures Count(l) >= 0
  {
    if l != [] {
      CanonicalTail(l);
      CanonicalCount(l[1..]);
    }
  }

  // ----- a fresh heap -----

  ghost function FreshOwners(c: Config): map<int, Owner> {
    map p | p in Span(c.start, c.pages) :: if p < c.start + c.tablePages then Table else Nobody
  }

  /** After system_heap_init: the usage table sits in the first pages, the rest is one free run. */
  ghost function Fresh(c: Config, usage: map<int, Usage>): State {
    var rest := if c.pages == c.tablePages then [] else [Run(c.start + c.tablePages, c.pages - c.tablePages)];
    State(rest, map[], seq(NZONES, i => []), [], usage, 0, 0, map[], FreshOwners(c))
  }

  lemma FreshOk(c: Config, usage: map<int, Usage>)
    requires c.Valid() && c.table == c.start && usage.Keys == Span(c.start, c.pages)
    ensures Inv(c, Fresh(c, usage))
  {
    var s := Fresh(c, usage);
    FreshPages(c, usage);
    assert s.zones.Keys == {};
    hide PagesOk;
    assert PageSumOk(c, s.list, |s.zones|, s.live) by {
      assert |s.zones| == 0;
      assert Count([]) == 0;
      assert s.list != [] ==> s.list[1..] == [];
      assert Total(s.live, true) == 0;
    }
  }

  lemma FreshPages(c: Config, usage: map<int, Usage>)
    requires c.Valid() && c.table == c.start && usage.Keys == Span(c.start, c.pages)
    ensures PagesOk(c, Fresh(c, usage).list, FreshOwners(c), usage)
  {
    var l := Fresh(c, usage).list;
    assert l != [] ==> l[1..] == [];
    assert Pages.Free(l) == Span(c.start + c.tablePages, c.pages - c.tablePages);
  }
}
