/**
 The size classes of kernel/slab.cpp: request sizes to zone indices and chunk sizes, the size of the
 zones, and the layout of one zone.
 */
module SizeClass {

  const PAGE_SIZE := 4096
  const NZONES := 72
  const HEADER := 36          // sizeof(slab_zone) with 32-bit fields and pointers
  const MIN_ZONE := 32 * 1024
  const MAX_ZONE := 128 * 1024
  const ZONE_LIMIT := 16 * 1024

  /** (n + a - 1) & ~(a - 1), for a power of two `a`. */
  function AlignUp(n: int, a: int): (r: int)
    requires a > 0
  {
    (n + a - 1) / a * a
  }

  datatype Class = Class(index: int, chunk: int)

  /** zoneindex: the zone index of a request, and the chunk size the request is rounded up to. */
  function ZoneIndex(n: nat): (r: Class) {
    if n < 128 then var c := AlignUp(n, 8); Class(c / 8 - 1, c)
    else if n < 256 then var c := AlignUp(n, 16); Class(c / 16 + 7, c)
    else if n < 8192 then
      if n < 512 then var c := AlignUp(n, 32); Class(c / 32 + 15, c)
      else if n < 1024 then var c := AlignUp(n, 64); Class(c / 64 + 23, c)
      else if n < 2048 then var c := AlignUp(n, 128); Class(c / 128 + 31, c)
      else if n < 4096 then var c := AlignUp(n, 256); Class(c / 256 + 39, c)
      else var c := AlignUp(n, 512); Class(c / 512 + 47, c)
    else if n < 16384 then var c := AlignUp(n, 1024); Class(c / 1024 + 55, c)
    else Class(0, n)
  }

  /** The chunk size of a zone index, the other way round. */
  function ChunkOf(index: int): int {
    if index < 16 then 8 * (index + 1)
    else if index < 24 then 16 * (index - 7)
    else if index < 32 then 32 * (index - 15)
    else if index < 40 then 64 * (index - 23)
    else if index < 48 then 128 * (index - 31)
    else if index < 56 then 256 * (index - 39)
    else if index < 64 then 512 * (index - 47)
    else 1024 * (index - 55)
  }

  /** The chunk holds the request, wastes little, and index and chunk size determine each other. */
  lemma ZoneIndexFits(n: nat)
    requires 1 <= n < ZONE_LIMIT
    ensures Fits(n, ZoneIndex(n))
  {
    if n < 512 { SmallFits(n); } else if n < 2048 { MiddleFits(n); } else if n < 4096 { LargeFits(n); }
    else if n < 8192 { HugeFits(n); } else { HugestFits(n); }
  }

  ghost predicate Fits(n: int, r: Class) {
    && 0 <= r.index < NZONES && n <= r.chunk == ChunkOf(r.index)
    && (r.chunk - n < 8 || (r.chunk - n) * 8 < n)
    && 8 <= r.chunk <= ZONE_LIMIT && r.chunk % 8 == 0
    && (n < 8192 ==> r.chunk <= 8192)
  }

  lemma SmallFits(n: nat)
    requires 1 <= n < 512
    ensures Fits(n, ZoneIndex(n))
  {
    if n < 128 {
      var q := (n + 7) / 8;
      assert ZoneIndex(n) == Class(q - 1, 8 * q);
    } else if n < 256 {
      var q := (n + 15) / 16;
      assert ZoneIndex(n) == Class(q + 7, 16 * q);
    } else {
      var q := (n + 31) / 32;
      assert ZoneIndex(n) == Class(q + 15, 32 * q);
    }
  }

  lemma MiddleFits(n: nat)
    requires 512 <= n < 2048
    ensures Fits(n, ZoneIndex(n))
  {
    if n < 1024 {
      var q := (n + 63) / 64;
      assert ZoneIndex(n) == Class(q + 23, 64 * q);
    } else {
      var q := (n + 127) / 128;
      assert ZoneIndex(n) == Class(q + 31, 128 * q);
    }
  }

  lemma LargeFits(n: nat)
    requires 2048 <= n < 4096
    ensures Fits(n, ZoneIndex(n))
  {
    var q := (n + 255) / 256;
    assert ZoneIndex(n) == Class(q + 39, 256 * q);
  }

  lemma HugeFits(n: nat)
    requires 4096 <= n < 8192
    ensures Fits(n, ZoneIndex(n))
  {
    var q := (n + 511) / 512;
    assert ZoneIndex(n) == Class(q + 47, 512 * q);
    assert 8 <= q <= 16;
  }

  lemma HugestFits(n: nat)
    requires 8192 <= n < ZONE_LIMIT
    ensures Fits(n, ZoneIndex(n))
  {
    var q := (n + 1023) / 1024;
    assert ZoneIndex(n) == Class(q + 55, 1024 * q);
    assert 8 <= q <= 16;
  }

  lemma ChunkOfMonotone(i: int, j: int)
    requires 0 <= i < j < NZONES
    ensures ChunkOf(i) < ChunkOf(j)
  {
  }

  /** Equal chunk sizes and equal indices are the same thing, in and across all size ranges. */
  lemma IndexIffChunk(n: nat, m: nat)
    requires 1 <= n < ZONE_LIMIT && 1 <= m < ZONE_LIMIT
    ensures ZoneIndex(n).index == ZoneIndex(m).index <==> ZoneIndex(n).chunk == ZoneIndex(m).chunk
  {
    ZoneIndexFits(n);
    ZoneIndexFits(m);
    var i, j := ZoneIndex(n).index, ZoneIndex(m).index;
    if i < j { ChunkOfMonotone(i, j); } else if j < i { ChunkOfMonotone(j, i); }
  }

  lemma ZoneIndexMonotone(n: nat, m: nat)
    requires 1 <= n <= m < ZONE_LIMIT
    ensures ZoneIndex(n).chunk <= ZoneIndex(m).chunk && ZoneIndex(n).index <= ZoneIndex(m).index
  {
    ZoneIndexFits(n);
    ZoneIndexFits(m);
    var i, j := ZoneIndex(n).index, ZoneIndex(m).index;
    if j < i {
      ChunkOfMonotone(j, i);
      ZoneIndexLeast(n, j);
    }
  }

  /** The chunk size is the least one that holds the request. */
  lemma ZoneIndexLeast(n: nat, j: int)
    requires 1 <= n < ZONE_LIMIT && 0 <= j < ZoneIndex(n).index
    ensures ChunkOf(j) < n
  {
    var i := ZoneIndex(n).index;
    ZoneIndexFits(n);
    if j < i - 1 { ChunkOfMonotone(j, i - 1); }
    assert ChunkOf(i - 1) < n;
  }

  // ----- zone size and layout -----

  /** The zone size that system_heap_init settles on for a heap of `bytes` bytes. */
  method ZoneSize(bytes: nat) returns (size: int)
    ensures size == if bytes / 1024 <= 65536 then 32768 else if bytes / 1024 <= 131072 then 65536 else 131072
  {
    size := MIN_ZONE;
    while size < MAX_ZONE && size * 2 < bytes / 1024
      invariant size == 32768 || (size == 65536 && 65536 < bytes / 1024) || (size == 131072 && 131072 < bytes / 1024)
      decreases MAX_ZONE - size
    {
      size := size * 2;
    }
  }

  predicate IsZoneSize(size: int) {
    size == 32768 || size == 65536 || size == 131072
  }

  function LimitOf(size: int): int {
    if size / 4 > ZONE_LIMIT then ZONE_LIMIT else size / 4
  }

  /** (s | (s - 1)) + 1 == s << 1 is true of the powers of two. */
  predicate PowerOfTwo(s: int) {
    s in {8, 16, 32, 64, 128, 256, 512, 1024, 2048, 4096, 8192, 16384}
  }

  lemma PowerOfTwoTest(s: bv32)
    requires 8 <= s <= 16384
    ensures (s | (s - 1)) + 1 == s << 1 <==>
            s == 8 || s == 16 || s == 32 || s == 64 || s == 128 || s == 256 || s == 512 || s == 1024
            || s == 2048 || s == 4096 || s == 8192 || s == 16384
  {
  }

  /** Where the chunks of a zone start. */
  function Offset(chunk: int): (off: int)
    requires chunk > 0
  {
    if PowerOfTwo(chunk) then AlignUp(HEADER, chunk) else AlignUp(HEADER, 8)
  }

  function MaxChunks(zoneSize: int, chunk: int): int
    requires chunk > 0
  {
    (zoneSize - Offset(chunk)) / chunk
  }

  /** Behind the header every zone has room for at least three chunks, and for no more than it counts. */
  lemma ZoneHolds(zoneSize: int, n: nat)
    requires IsZoneSize(zoneSize) && 1 <= n < LimitOf(zoneSize)
    ensures var chunk := ZoneIndex(n).chunk;
            && chunk > 0 && HEADER <= Offset(chunk)
            && MaxChunks(zoneSize, chunk) >= 3
            && Offset(chunk) + MaxChunks(zoneSize, chunk) * chunk <= zoneSize
            && zoneSize < Offset(chunk) + MaxChunks(zoneSize, chunk) * chunk + chunk
            && (PowerOfTwo(chunk) ==> Offset(chunk) % chunk == 0)
            && Offset(chunk) % 8 == 0 && Offset(chunk) < HEADER + (if PowerOfTwo(chunk) then chunk else 8)
  {
    ZoneIndexFits(n);
    var chunk := ZoneIndex(n).chunk;
    OffsetBounds(chunk);
    RoomFor(zoneSize - Offset(chunk), chunk);
  }

  lemma OffsetBounds(chunk: int)
    requires 8 <= chunk <= 16384
    ensures HEADER <= Offset(chunk) <= chunk + 32 && Offset(chunk) % 8 == 0
    ensures Offset(chunk) < HEADER + if PowerOfTwo(chunk) then chunk else 8
    ensures PowerOfTwo(chunk) ==> Offset(chunk) % chunk == 0
    ensures PowerOfTwo(chunk) && chunk >= 64 ==> Offset(chunk) == chunk
    ensures Offset(chunk) + 3 * chunk <= 4 * chunk || Offset(chunk) <= 64
  {
    if chunk == 8 {} else if chunk == 16 {} else if chunk == 32 {} else if chunk == 64 {} else if chunk == 128 {}
    else if chunk == 256 {} else if chunk == 512 {} else if chunk == 1024 {} else if chunk == 2048 {}
    else if chunk == 4096 {} else if chunk == 8192 {} else if chunk == 16384 {}
  }

  lemma RoomFor(room: int, chunk: int)
    requires chunk > 0 && 3 * chunk <= room
    ensures room / chunk >= 3 && room / chunk * chunk <= room < room / chunk * chunk + chunk
  {
    var q, r := room / chunk, room % chunk;
    assert room == q * chunk + r && 0 <= r < chunk;
    assert q <= 2 ==> q * chunk <= 2 * chunk;
  }
}
