/**
 The slab allocator of kernel/slab.cpp as a state machine: the page list, the zones with their chunk
 lists, the zone lists, the cache of idle zones, the usage table, and what the callers hold.  An address
 is a byte address; page p starts at p * PAGE_SIZE.
 */
module Slab {
  import opened Pages
  import opened SizeClass

  /** What system_heap_init fixes: the heap, the zone size and the place of the usage table. */
  datatype Config = Config(start: int, pages: int, zoneSize: int, table: int, tablePages: int) {
    function ZonePages(): int { zoneSize / PAGE_SIZE }

    predicate Valid() {
      && start > 0 && pages > 0 && start + pages <= 0x10_0000 && IsZoneSize(zoneSize)
      && start <= table && tablePages > 0 && table + tablePages <= start + pages
    }
  }

  /** The configuration that system_heap_init settles on for `n` pages from page `start` on. */
  function HeapConfig(start: int, n: int): Config {
    Config(start, n, if n <= 16384 then 32768 else if n <= 32768 then 65536 else 131072, start, (n + 1023) / 1024)
  }

  /** A zone header.  `chunks` is its list of freed chunks, most recent first. */
  datatype Zone = Zone(nfree: int, nmax: int, base: int, uindex: int, chunk: int, index: int, chunks: seq<int>)

  datatype Kind = FREE | SMALL | LARGE
  datatype Usage = Usage(kind: Kind, size: int)

  /** What a page belongs to. */
  datatype Owner = Nobody | Table | InZone(zone: int) | InBlock(first: int)

  /** A block in the hands of a caller. */
  datatype Block = Small(size: int, zone: int, chunk: int) | Large(size: int, count: int)

  datatype State = State(list: seq<Run>, zones: map<int, Zone>, ary: seq<seq<int>>, cache: seq<int>,
                         usage: map<int, Usage>, used: int, peak: int,
                         live: map<int, Block>, own: map<int, Owner>)

  // ----- the steps -----

  datatype Outcome = Outcome(state: State, ptr: int)

  function Peak(s: State): State {
    if s.used > s.peak then s.(peak := s.used) else s
  }

  /** The bytes of a large request, rounded up to pages in 32-bit arithmetic. */
  function LargeBytes(size: int): int {
    (size + PAGE_SIZE - 1) % 0x1_0000_0000 / PAGE_SIZE * PAGE_SIZE
  }

  ghost function Marked(own: map<int, Owner>, page: int, count: int, o: Owner): map<int, Owner> {
    map p | p in own :: if page <= p < page + count then o else own[p]
  }

  /** The usage entries of a fresh zone: the offset of every page from the first. */
  function SmallUsage(usage: map<int, Usage>, page: int, count: int): map<int, Usage> {
    map p | p in usage :: if page <= p < page + count then Usage(SMALL, p - page) else usage[p]
  }

  function FreeUsage(usage: map<int, Usage>, page: int, count: int): map<int, Usage> {
    map p | p in usage :: if page <= p < page + count then Usage(FREE, 0) else usage[p]
  }

  /** `n` pages from `p` on become a large block. */
  ghost function HoldLarge(s: State, size: int, n: int, p: int, rest: seq<Run>): State {
    s.(list := rest, usage := s.usage[p := Usage(LARGE, n)], used := s.used + n * PAGE_SIZE,
       live := s.live[p * PAGE_SIZE := Large(size, n)], own := Marked(s.own, p, n, InBlock(p)))
  }

  ghost function MallocLarge(s: State, size: int): Outcome {
    var bytes := LargeBytes(size);
    var n := bytes / PAGE_SIZE;
    if n <= 0 then Outcome(s, 0)
    else
      match Take(s.list, n)
      case NoPages => Outcome(s, 0)
      case Taken(p, rest) => Outcome(Peak(HoldLarge(s, size, n, p, rest)), p * PAGE_SIZE)
  }

  /** Allocate from the first zone of the list of index `zi`. */
  ghost function MallocZone(s: State, size: int, zi: int, chunk: int): Outcome
    requires 0 <= zi < |s.ary| && s.ary[zi] != [] && s.ary[zi][0] in s.zones
  {
    var z := s.ary[zi][0];
    var zone := s.zones[z].(nfree := s.zones[z].nfree - 1);
    var ary := if zone.nfree == 0 then s.ary[zi := s.ary[zi][1..]] else s.ary;
    var unused := zone.uindex + 1 != zone.nmax;
    var zone' := if unused then zone.(uindex := zone.uindex + 1)
                 else if zone.chunks == [] then zone else zone.(chunks := zone.chunks[1..]);
    var a := if unused then zone.base + zone'.uindex * chunk
             else if zone.chunks == [] then 0 else zone.chunks[0];
    Outcome(Peak(s.(zones := s.zones[z := zone'], ary := ary, used := s.used + zone.chunk,
                    live := s.live[a := Small(size, z, zone.chunk)])), a)
  }

  /** A zone for index `zi`, its first chunk handed out. */
  function NewZone(zoneSize: int, z: int, zi: int, chunk: int): Zone
    requires chunk > 0
  {
    var nmax := MaxChunks(zoneSize, chunk);
    Zone(nmax - 1, nmax, z * PAGE_SIZE + Offset(chunk), 0, chunk, zi, [])
  }

  ghost function OpenZone(c: Config, s: State, z: int, size: int, zi: int, chunk: int): Outcome
    requires chunk > 0 && 0 <= zi < |s.ary|
  {
    var zone := NewZone(c.zoneSize, z, zi, chunk);
    Outcome(Peak(s.(zones := s.zones[z := zone], ary := s.ary[zi := [z] + s.ary[zi]], used := s.used + chunk,
                    live := s.live[zone.base := Small(size, z, chunk)])), zone.base)
  }

  ghost function MallocNew(c: Config, s: State, size: int, zi: int, chunk: int): Outcome
    requires chunk > 0 && 0 <= zi < |s.ary| && c.ZonePages() > 0
  {
    if s.cache != [] then OpenZone(c, s.(cache := s.cache[1..]), s.cache[0], size, zi, chunk)
    else
      match Take(s.list, c.ZonePages())
      case NoPages => Outcome(s, 0)
      case Taken(p, rest) =>
        var s' := s.(list := rest, usage := SmallUsage(s.usage, p, c.ZonePages()),
            own := Marked(s.own, p, c.ZonePages(), InZone(p)));
        OpenZone(c, s', p, size, zi, chunk)
  }

  /** kmalloc */
  ghost function Malloc(c: Config, s: State, size: int): Outcome
    requires c.Valid() && |s.ary| == NZONES && 0 <= size < 0x1_0000_0000
    requires forall i :: 0 <= i < |s.ary| && s.ary[i] != [] ==> s.ary[i][0] in s.zones
  {
    if size == 0 then Outcome(s, 0)
    else if size >= LimitOf(c.zoneSize) then MallocLarge(s, size)
    else
      ZoneIndexFits(size);
      var k := ZoneIndex(size);
      if s.ary[k.index] != [] then MallocZone(s, size, k.index, k.chunk)
      else MallocNew(c, s, size, k.index, k.chunk)
  }

  function Without(l: seq<int>, z: int): seq<int> {
    if l == [] then [] else if l[0] == z then l[1..] else [l[0]] + Without(l[1..], z)
  }

  ghost function FreeLarge(s: State, ptr: int, n: int): State {
    var p := ptr / PAGE_SIZE;
    s.(usage := s.usage[p := Usage(LARGE, 0)], used := s.used - n * PAGE_SIZE, list := Give(s.list, p, n),
       live := s.live - {ptr}, own := Marked(s.own, p, n, Nobody))
  }

  /** The chunk goes to the front of the zone's list; a zone that was exhausted is listed again. */
  ghost function PutChunk(s: State, ptr: int, z: int): State
    requires z in s.zones && 0 <= s.zones[z].index < |s.ary|
  {
    var zone := s.zones[z];
    var ary := if zone.nfree == 0 then s.ary[zone.index := [z] + s.ary[zone.index]] else s.ary;
    s.(zones := s.zones[z := zone.(chunks := [ptr] + zone.chunks, nfree := zone.nfree + 1)],
       ary := ary, used := s.used - zone.chunk, live := s.live - {ptr})
  }

  /** An idle zone that is not the last one of its list moves to the cache; a third one goes back to the pages. */
  ghost function Retire(c: Config, s: State, z: int): State
    requires z in s.zones && 0 <= s.zones[z].index < |s.ary|
  {
    var zone := s.zones[z];
    if zone.nfree == zone.nmax && s.ary[zone.index] != [z] then
      var s' := s.(ary := s.ary[zone.index := Without(s.ary[zone.index], z)]);
      if |s.cache| + 1 > 2 then
        s'.(usage := FreeUsage(s.usage, z, c.ZonePages()), list := Give(s.list, z, c.ZonePages()),
            zones := s.zones - {z}, own := Marked(s.own, z, c.ZonePages(), Nobody))
      else
        s'.(cache := [z] + s.cache)
    else s
  }

  /** kfree */
  ghost function FreeBlock(c: Config, s: State, ptr: int): State
    requires ptr != 0 ==> ptr / PAGE_SIZE in s.usage
    requires ptr != 0 && s.usage[ptr / PAGE_SIZE].kind != LARGE ==>
               var z := ptr / PAGE_SIZE - s.usage[ptr / PAGE_SIZE].size;
               z in s.zones && 0 <= s.zones[z].index < |s.ary|
  {
    if ptr == 0 then s
    else
      var kup := s.usage[ptr / PAGE_SIZE];
      if kup.kind == LARGE then FreeLarge(s, ptr, kup.size)
      else
        var z := ptr / PAGE_SIZE - kup.size;
        Retire(c, PutChunk(s, ptr, z), z)
  }
}
