/** The fixed-size block allocator of src/mempool.c. */
module Mempool {
  import opened PoolLayout
  import DList

  datatype Status = Done | Invalid | NoMemory | AssertFails | DivideByZero

  const DefaultUnits: int := 4096
  /** The two link words of a block on the free list. */
  const LinkSize: int := 16

  /** C's division of signed numbers, which drops the fraction. */
  function TruncDiv(a: int, b: int): int
    requires b > 0
  {
    if a >= 0 then a / b else -((-a) / b)
  }

  ghost function Elements(s: seq<int>): set<int> { set x | x in s }

  lemma {:induction false} DistinctSize(s: seq<int>)
    requires DList.Distinct(s)
    ensures |Elements(s)| == |s|
  {
    if s != [] {
      DistinctSize(s[1..]);
      assert Elements(s) == Elements(s[1..]) + {s[0]};
      assert s[0] !in s[1..];
    } else {
      assert Elements(s) == {};
    }
  }

  /** What the memory manager may answer to a request for a chunk: nothing, or memory of its own. */
  ghost predicate GrantOk(grant: int, request: int, chunks: seq<Chunk>) {
    grant != 0 ==>
      0 < grant && grant + request <= TwoTo64
      && forall i :: 0 <= i < |chunks| ==> Apart(Chunk(grant, request, 0, 0, 0), chunks[i])
  }

  /** The bytes new_chunk asks for. */
  function Request(blockSize: int, units: int): int { HeaderSize + blockSize * units + Alignment }

  /** Sizes in 64-bit arithmetic, as new_chunk computes them. */
  function ChunkSize(blockSize: int, units: int): int { blockSize * units % TwoTo64 }

  function AllocSize(chunkSize: int): int { (HeaderSize + chunkSize + Alignment) % TwoTo64 }

  /** The size of a zone from its first aligned address on, in 64-bit arithmetic. */
  function ZoneRoom(zone: int, zoneSize: int): int
    requires 0 <= zone < TwoTo64
  {
    (zoneSize - (Align(zone) - zone)) % TwoTo64
  }

  function ZoneLimit(ptr: int, room: int): int { (ptr + (room - HeaderSize) % TwoTo64) % TwoTo64 }

  /** A zone that ends before its first aligned address seems to have almost all memory there is; the
      end computed from it is the true end in either case. */
  lemma ZoneRoomIs(zone: int, zoneSize: int)
    requires Alignment <= zone && 0 <= zoneSize < TwoTo32 && zone + zoneSize + HeaderSize + Alignment <= TwoTo64
    ensures var base := Align(zone); var skip := base - zone; var room := ZoneRoom(zone, zoneSize);
      && 0 <= skip < Alignment && base % Alignment == 0 && base + HeaderSize < TwoTo64
      && room == (if zoneSize < skip then TwoTo64 + zoneSize - skip else zoneSize - skip)
      && (room >= HeaderSize ==> ZoneLimit(base + HeaderSize, room) == zone + zoneSize)
      && Align(base + HeaderSize) == base + HeaderSize
  {
    AlignIsNearest(zone);
    var base := Align(zone);
    hide Align;
    AlignIsNearest(base + HeaderSize);
  }

  /** The whole blocks of a zone and the end of the last one, in 32-bit arithmetic. */
  function ZoneUnits(room: int, size: int): int
    requires size > 0
  {
    TruncDiv(room, size) % TwoTo32
  }

  function ZoneEnd(start: int, units: int, size: int): int { start + units * size % TwoTo32 }

  /** A chunk at base with its blocks from the first aligned address behind the header on, none carved. */
  ghost predicate Laid(c: Chunk, base: int, units: nat, size: int) {
    && c.base == base && base + HeaderSize <= c.start < base + HeaderSize + Alignment && c.start % Alignment == 0
    && c.free == c.start && c.end == c.start + units * size
  }

  class Pool {
    const mru: DList.List
    var blockSize: int
    var maxBlocks: int
    var minUnits: int
    var chunks: seq<Chunk>
    ghost var counts: seq<Count>
    /** The blocks in the hands of the client. */
    ghost var live: set<int>

    /** Carved blocks are either with the client or on the free list. */
    ghost predicate Accounted()
      reads this, mru
      requires |chunks| == |counts|
    {
      && live !! Elements(mru.items)
      && live + Elements(mru.items) == Carved(chunks, counts, blockSize)
    }

    ghost predicate Valid()
      reads this, mru
    {
      && mru.Valid() && LayoutOk(chunks, counts, blockSize) && chunks != [] && Accounted()
      && (if maxBlocks == 0 then 2 <= minUnits < TwoTo32 && blockSize < TwoTo32
          else |chunks| == 1 && counts[0].units == maxBlocks)
    }

    constructor ()
      ensures fresh(mru)
    {
      mru := new DList.List();
      blockSize, maxBlocks, minUnits, chunks, counts, live := 0, 0, 0, [], [], {};
    }

    // ----- what a valid pool promises

    /** Blocks in use are aligned, lie inside a chunk's memory and overlap neither each other nor a free
        block, whose links are therefore safe from what is written into blocks in use. */
    lemma LiveBlocksApart()
      requires Valid()
      ensures Separated(live + Elements(mru.items), blockSize)
      ensures forall p :: p in live ==> InSome(chunks, blockSize, p) && p !in mru.items
      ensures |live| + |mru.items| == Total(counts)
    {
      CarvedSeparated(chunks, counts, blockSize);
      DistinctSize(mru.items);
      assert live * Elements(mru.items) == {};
      forall p | p in live ensures InSome(chunks, blockSize, p) {
        CarvedInside(chunks, counts, blockSize, p);
      }
      assert forall p :: p in mru.items ==> p in Elements(mru.items);
    }

    lemma LiveBlock(p: int)
      requires Valid() && p in live
      ensures p != 0 && p !in mru.items
      ensures exists i :: 0 <= i < |chunks| && chunks[i].base + HeaderSize <= p < chunks[i].end
    {
      CarvedInside(chunks, counts, blockSize, p);
      var i :| 0 <= i < |chunks| && Inside(chunks[i], blockSize, p);
      assert chunks[i].base + HeaderSize <= p < chunks[i].end;
      assert p !in Elements(mru.items);
    }

    /** A clamped pool has nothing left exactly when as many blocks as it was clamped to are in use. */
    lemma ClampReached()
      requires Valid() && maxBlocks > 0
      ensures |live| <= maxBlocks
      ensures mru.items == [] && !(chunks[0].free < chunks[0].end) <==> |live| == maxBlocks
    {
      LiveBlocksApart();
      HasRoom(chunks[0], counts[0], blockSize);
      assert counts == [counts[0]];
    }

    /** If there is neither a free block nor room in the latest chunk, every block there is is in use. */
    lemma NothingLeft()
      requires Valid() && mru.items == [] && !(chunks[0].free < chunks[0].end)
      ensures live == AllBlocks(chunks, counts, blockSize) && counts[0].used == counts[0].units
    {
      HasRoom(chunks[0], counts[0], blockSize);
      AllCarved(chunks, counts, blockSize);
    }

    // ----- operations

    /** alloc_from_chunk: carves a block from the latest chunk, 0 if it has none left. */
    method AllocFromChunk() returns (p: int)
      requires LayoutOk(chunks, counts, blockSize) && chunks != []
      modifies this`chunks, this`counts
      ensures LayoutOk(chunks, counts, blockSize)
      ensures p != 0 <==> old(chunks[0].free < chunks[0].end)
      ensures p == 0 ==> chunks == old(chunks) && counts == old(counts)
      ensures p != 0 ==> p == old(chunks[0].free) && IsCarved(old(chunks), old(counts), blockSize, chunks, counts)
      ensures p != 0 ==> Carved(chunks, counts, blockSize) == old(Carved(chunks, counts, blockSize)) + {p}
      ensures p !in old(Carved(chunks, counts, blockSize))
    {
      p := 0;
      ghost var cs, ns := chunks, counts;
      assert ChunkOk(chunks[0], counts[0], blockSize);
      Scaled(0, counts[0].used, blockSize);
      ZeroNotCarved(chunks, counts, blockSize);
      hide ChunkOk, LayoutOk, Carved;
      if chunks[0].free < chunks[0].end {
        p := chunks[0].free;
        chunks := [CarveOne(chunks[0], blockSize)] + chunks[1..];
        counts := [counts[0].(used := counts[0].used + 1)] + counts[1..];
        CarveKeepsLayout(cs, ns, blockSize, chunks, counts);
        CarveAddsOne(cs, ns, blockSize, chunks, counts);
      }
    }

    /** new_chunk; grant is the address the memory manager answers with, 0 if it has no memory. */
    method NewChunk(grant: int) returns (s: Status)
      requires LayoutOk(chunks, counts, blockSize) || (chunks == [] && counts == [] && blockSize == 0)
      requires 0 <= minUnits < TwoTo32 && blockSize < TwoTo32
      requires chunks != [] ==> counts[0].used == counts[0].units
      requires GrantOk(grant, Request(blockSize, minUnits), chunks)
      modifies this`chunks, this`counts
      ensures s == (if blockSize == 0 || minUnits <= 1 then AssertFails else if grant == 0 then NoMemory else Done)
      ensures s != Done ==> chunks == old(chunks) && counts == old(counts)
      ensures s == Done ==>
        && LayoutOk(chunks, counts, blockSize)
        && Carved(chunks, counts, blockSize) == old(Carved(chunks, counts, blockSize))
        && chunks != [] && chunks[1..] == old(chunks) && Laid(chunks[0], grant, minUnits, blockSize)
        && counts == [Count(0, minUnits)] + old(counts) && chunks[0].free < chunks[0].end
    {
      assert blockSize == 0 || (MinBlock <= blockSize && blockSize % Alignment == 0 && LayoutOk(chunks, counts, blockSize));
      hide LayoutOk, ChunkOk, Carved, ChunkSize, AllocSize, Request, Align, Laid;
      ChunkSizeFits(blockSize, minUnits);
      var chunkSize := ChunkSize(blockSize, minUnits);
      var allocSize := AllocSize(chunkSize);
      if !(chunkSize > blockSize && chunkSize > minUnits) || !(allocSize > chunkSize) {
        return AssertFails;
      }
      if grant == 0 {
        return NoMemory;
      }
      FreshChunk(grant, blockSize, minUnits);
      var start := Align(grant + HeaderSize);
      var c := Chunk(grant, allocSize, start, start, start + chunkSize);
      ghost var n := Count(0, minUnits);
      forall i | 0 <= i < |chunks| ensures Apart(c, chunks[i]) {
        assert Apart(Chunk(grant, allocSize, 0, 0, 0), chunks[i]);
      }
      AddChunk(chunks, counts, blockSize, c, n);
      chunks, counts := [c] + chunks, [n] + counts;
      s := Done;
    }

    /** __real_init. The assertions in new_chunk refuse a pool of single blocks and block sizes that
        rounding turns into 0. */
    method Init(size: int, max: int, units: int, grant: int) returns (s: Status)
      requires 0 <= size < TwoTo32 && 0 <= max < TwoTo32 && 0 <= units < TwoTo32
      requires GrantOk(grant, Request(Rounded(size), if max > 0 then max else if units == 0 then DefaultUnits else units), [])
      modifies this, mru
      ensures s == AssertFails <==> size > TwoTo32 - Alignment || max == 1 || (max == 0 && units == 1)
      ensures s == NoMemory <==> s != AssertFails && grant == 0
      ensures s == Done <==> s != AssertFails && grant != 0
      ensures s == Done ==> Valid() && live == {} && mru.items == [] && maxBlocks == max
      ensures s == Done ==>
        && blockSize == Rounded(size) && size <= blockSize && MinBlock <= blockSize
        && minUnits == (if max > 0 then max else if units == 0 then 4096 else units)
        && |chunks| == 1 && counts == [Count(0, minUnits)] && Laid(chunks[0], grant, minUnits, blockSize)
    {
      RoundedFits(size);
      hide Laid;
      EmptyMru();
      blockSize := Rounded(size);
      maxBlocks := max;
      minUnits := if max > 0 then max else if units == 0 then DefaultUnits else units;
      chunks, counts, live := [], [], {};
      s := NewChunk(grant);
      assert Elements(mru.items) == {};
    }

    /** mempool_init_from_mem: a clamped pool inside the given memory. Nothing stops a zone that ends
        before its first aligned address until the last assertion does, after the chunk's header has
        been written behind the zone. */
    method InitFromMem(size: int, zone: int, zoneSize: int) returns (s: Status)
      requires 0 <= size < TwoTo32 && 0 <= zoneSize < TwoTo32
      requires zone == 0 || (Alignment <= zone && zone + zoneSize + HeaderSize + Alignment <= TwoTo64)
      modifies this, mru
      ensures s == Invalid <==> zone == 0 || zoneSize == 0
      ensures zone != 0 && zoneSize != 0 ==>
        var skip := Align(zone) - zone; var needed := skip + Rounded(size) + Alignment + HeaderSize;
        && (s == AssertFails <==> zoneSize < skip && size <= TwoTo32 - Alignment)
        && (s == DivideByZero <==> size > TwoTo32 - Alignment && (zoneSize < skip || needed <= zoneSize))
        && (s == NoMemory <==> skip <= zoneSize < needed)
      ensures s == Done ==> Valid() && live == {} && mru.items == [] && maxBlocks >= 1
      // as many blocks as fit between the first aligned address behind the header and the end of the zone
      ensures s == Done ==>
        && blockSize == Rounded(size) && |chunks| == 1 && counts == [Count(0, maxBlocks)] && minUnits == maxBlocks
        && Laid(chunks[0], Align(zone), maxBlocks, blockSize)
        && chunks[0].end <= zone + zoneSize < chunks[0].end + blockSize
    {
      if zone == 0 || zoneSize == 0 {
        return Invalid;
      }
      EmptyMru();
      RoundedFits(size);
      ZoneRoomIs(zone, zoneSize);
      hide Align, ZoneRoom, ZoneLimit;
      var bs := Rounded(size);
      var base := Align(zone);
      var poolSize := ZoneRoom(zone, zoneSize);
      if poolSize < bs + Alignment + HeaderSize {
        return NoMemory;
      }
      var end := ZoneLimit(base + HeaderSize, poolSize);
      if bs == 0 {
        return DivideByZero;
      }
      hide Rounded, Laid, Valid;
      assert Align(base + HeaderSize) == base + HeaderSize;
      s := UseZone(bs, base, end);
    }

    /** The end of mempool_init_from_mem: as many blocks as fit before end, and the assertion that some do. */
    method UseZone(bs: int, base: int, end: int) returns (s: Status)
      requires mru.Valid() && mru.items == [] && MinBlock <= bs < TwoTo32 && bs % Alignment == 0
      requires 0 < base && base % Alignment == 0 && base + HeaderSize < TwoTo64 && Align(base + HeaderSize) == base + HeaderSize
      requires base - Alignment < end < base + TwoTo32 && end <= TwoTo64
      requires base <= end ==> base + HeaderSize + bs <= end
      modifies this
      ensures s == (if end < base then AssertFails else Done)
      ensures s == Done ==> Valid() && live == {} && maxBlocks >= 1
      ensures s == Done ==>
        && blockSize == bs && |chunks| == 1 && counts == [Count(0, maxBlocks)] && minUnits == maxBlocks
        && Laid(chunks[0], base, maxBlocks, bs)
        && chunks[0].end <= end < chunks[0].end + bs
    {
      hide TruncDiv, ZoneUnits, ZoneEnd, HoldsBlocks, Laid, ChunkOk, Align, Valid;
      var start := Align(base + HeaderSize);
      var units := ZoneUnits(end - start, bs);
      var last := ZoneEnd(start, units, bs);
      ZoneFits(start, end, bs);
      if !(last <= end) {
        return AssertFails;
      }
      var c := Chunk(base, end - base, start, start, last);
      ZoneChunk(c, units, bs);
      Adopt(bs, units, c);
      s := Done;
    }

    /** Makes a zone the only chunk of a new pool. */
    method Adopt(bs: int, units: nat, c: Chunk)
      requires mru.Valid() && mru.items == [] && ChunkOk(c, Count(0, units), bs) && units > 0
      requires MinBlock <= bs && bs % Alignment == 0
      modifies this
      ensures Valid() && live == {} && blockSize == bs && maxBlocks == minUnits == units && chunks == [c] && counts == [Count(0, units)]
    {
      hide ChunkOk;
      blockSize, maxBlocks, minUnits := bs, units, units;
      chunks, counts, live := [c], [Count(0, units)], {};
      assert Carved(chunks[1..], counts[1..], bs) == {};
      assert Elements(mru.items) == {};
    }

    /** Clears the list heads, as the memset of a new pool does. */
    method EmptyMru()
      modifies mru
      ensures mru.Valid() && mru.items == []
    {
      mru.first, mru.last, mru.items := 0, 0, [];
    }

    /** mempool_alloc; grant answers the request for another chunk if one is made, as asked reports. */
    method Alloc(grant: int) returns (p: int, asked: bool)
      requires Valid() && (maxBlocks == 0 ==> GrantOk(grant, Request(blockSize, minUnits), chunks))
      modifies this`chunks, this`counts, this`live, mru
      ensures Valid()
      // the block is new to the client
      ensures p != 0 ==> p !in old(live) && live == old(live) + {p}
      ensures p == 0 ==> live == old(live) && mru.items == old(mru.items) && chunks == old(chunks)
      // the block freed longest ago comes first, then the latest chunk
      ensures old(mru.items) != [] ==> old(mru.items) == mru.items + [p] && chunks == old(chunks) && counts == old(counts)
      ensures old(mru.items) == [] && old(chunks[0].free < chunks[0].end) ==>
        p == old(chunks[0].free) && mru.items == [] && IsCarved(old(chunks), old(counts), blockSize, chunks, counts)
      // a clamped pool refuses exactly when all its blocks are in use, and never asks for memory
      ensures old(maxBlocks) > 0 ==> (p == 0 <==> |old(live)| == maxBlocks) && !asked
      // memory is asked for only when every block there is is in use
      ensures asked ==> old(live == AllBlocks(chunks, counts, blockSize))
      ensures old(maxBlocks) == 0 ==> (p == 0 <==> asked && grant == 0)
      ensures old(maxBlocks) == 0 ==> (asked <==> old(mru.items) == [] && !old(chunks[0].free < chunks[0].end))
      // a new chunk of min_units blocks, of which the first is handed out
      ensures asked && p != 0 ==> FirstOfNew(chunks, counts, old(chunks), old(counts), grant, p)
    {
      asked := false;
      if maxBlocks > 0 { ClampReached(); }
      hide LayoutOk, Carved, AllBlocks, FirstOfNew, IsCarved;
      p := TakeFreed();
      if p == 0 {
        p := CarveBlock();
      }
      if p == 0 && maxBlocks == 0 {
        asked := true;
        NothingLeft();
        p := CarveFromNew(grant);
      }
      if p != 0 {
        mru.Overwrite(p, 0xaaaa_aaaa_aaaa_aaaa, 0xaaaa_aaaa_aaaa_aaaa);
      }
    }

    /** The first choice of mempool_alloc: the end of the free list. */
    method TakeFreed() returns (p: int)
      requires Valid()
      modifies this`live, mru
      ensures Valid()
      ensures if old(mru.items) == [] then p == 0 && mru.items == [] && live == old(live)
        else old(mru.items) == mru.items + [p] && p != 0 && p !in old(live) && live == old(live) + {p} && p !in mru.items
    {
      hide LayoutOk, Carved;
      p := mru.RemoveTail();
      if p != 0 {
        TookTail(old(mru.items), mru.items, p);
        live := live + {p};
      }
    }

    /** The second choice: the latest chunk. */
    method CarveBlock() returns (p: int)
      requires Valid()
      modifies this`chunks, this`counts, this`live
      ensures Valid() && (p != 0 <==> old(chunks[0].free < chunks[0].end))
      ensures p == 0 ==> chunks == old(chunks) && counts == old(counts) && live == old(live)
      ensures p != 0 ==> p == old(chunks[0].free) && p !in old(live) && live == old(live) + {p} && p !in mru.items
      ensures p != 0 ==> IsCarved(old(chunks), old(counts), blockSize, chunks, counts)
    {
      hide LayoutOk, Carved;
      p := AllocFromChunk();
      if p != 0 {
        live := live + {p};
        assert p !in Elements(mru.items);
      }
    }

    /** The last choice: a new chunk. */
    method CarveFromNew(grant: int) returns (p: int)
      requires Valid() && maxBlocks == 0 && counts[0].used == counts[0].units
      requires GrantOk(grant, Request(blockSize, minUnits), chunks)
      modifies this`chunks, this`counts, this`live
      ensures Valid() && (p == 0 <==> grant == 0)
      ensures p == 0 ==> chunks == old(chunks) && counts == old(counts) && live == old(live)
      ensures p != 0 ==> p !in old(live) && live == old(live) + {p} && p !in mru.items
      ensures p != 0 ==> FirstOfNew(chunks, counts, old(chunks), old(counts), grant, p)
    {
      assert blockSize >= MinBlock;
      hide LayoutOk, Carved;
      p := 0;
      var s := NewChunk(grant);
      if s == Done {
        p := CarveBlock();
        assert chunks[1..] == old(chunks);
      }
    }

    ghost predicate FirstOfNew(cs: seq<Chunk>, ns: seq<Count>, was: seq<Chunk>, had: seq<Count>, grant: int, p: int)
      reads this
    {
      && |cs| == |was| + 1 && cs[1..] == was && ns == [Count(1, if minUnits >= 0 then minUnits else 0)] + had
      && Laid(cs[0].(free := cs[0].start), grant, if minUnits >= 0 then minUnits else 0, blockSize)
      && p == cs[0].start && cs[0].free == p + blockSize
    }

    /** _valid_blk_p. */
    method ValidBlock(p: int) returns (ok: bool)
      ensures ok <==> exists i :: 0 <= i < |chunks| && chunks[i].base + HeaderSize <= p < chunks[i].end
    {
      var i := 0;
      while i < |chunks|
        invariant 0 <= i <= |chunks|
        invariant forall j :: 0 <= j < i ==> !(chunks[j].base + HeaderSize <= p < chunks[j].end)
      {
        if chunks[i].base + HeaderSize <= p < chunks[i].end {
          return true;
        }
        i := i + 1;
      }
      ok := false;
    }

    /** mempool_free; its assertion accepts every block the client may return. */
    method Free(p: int)
      requires Valid() && p in live
      modifies this`live, mru
      ensures Valid() && live == old(live) - {p} && mru.items == [p] + old(mru.items)
    {
      LiveBlock(p);
      hide LayoutOk, Carved;
      var ok := ValidBlock(p);
      assert ok;
      mru.Overwrite(p, 0x7777_7777_7777_7777, 0x7777_7777_7777_7777);
      mru.InsertHead(p);
      live := live - {p};
      assert Elements(mru.items) == old(Elements(mru.items)) + {p};
    }

    /** The bytes of a block in use miss both link words of every block on the free list. */
    lemma WritesMissLinks(p: int)
      requires Valid() && p in live
      ensures forall q :: q in mru.items ==> p + blockSize <= q || q + LinkSize <= p
    {
      LiveBlocksApart();
      var all := live + Elements(mru.items);
      forall q | q in mru.items ensures p + blockSize <= q || q + LinkSize <= p {
        assert q in Elements(mru.items) && p != q;
        assert p in all && q in all && Clear(p, q, blockSize);
      }
    }

    /** What the client writes into a block of its own does not disturb the pool: it may change the words at
        any address e where a pair of links would overlap the block, and none of the list's are there. */
    method Write(p: int, e: int, first: int, second: int)
      requires Valid() && p in live && e < p + blockSize && p < e + LinkSize
      modifies mru
      ensures Valid() && mru.items == old(mru.items)
    {
      WritesMissLinks(p);
      hide LayoutOk, Carved;
      mru.Overwrite(e, first, second);
    }
  }

  lemma Quotient(room: int, size: int)
    requires 0 < size <= room
    ensures var n := room / size; 1 <= n <= n * size <= room < n * size + size
  {
    var n := room / size;
    assert n * size <= room < n * size + size;
    assert n * size > 0;
    assert n * size - n == n * (size - 1) && n * (size - 1) >= 0;
  }

  /** n blocks lie between start and end. */
  ghost predicate HoldsBlocks(start: int, end: int, n: nat, size: int) { end == start + n * size }

  lemma ZoneChunk(c: Chunk, units: nat, size: int)
    requires 0 < c.base && c.start == c.base + HeaderSize && c.start % Alignment == 0 && c.free == c.start && 0 < size
    requires HoldsBlocks(c.start, c.end, units, size) && c.end <= c.base + c.size <= TwoTo64
    ensures ChunkOk(c, Count(0, units), size) && Laid(c, c.base, units, size)
  {
    assert 0 * size == 0;
  }

  /** As many whole blocks as fit; none of it makes sense if the zone ends before it starts. */
  lemma ZoneFits(start: int, end: int, size: int)
    requires 0 < size && (end < start || size <= end - start < TwoTo32)
    ensures var n := ZoneUnits(end - start, size);
      if end < start then ZoneEnd(start, n, size) > end
      else 1 <= n && HoldsBlocks(start, ZoneEnd(start, n, size), n, size) && ZoneEnd(start, n, size) <= end < ZoneEnd(start, n, size) + size
  {
    if start <= end {
      var room := end - start;
      var n := room / size;
      Quotient(room, size);
      assert n % TwoTo32 == n && n * size % TwoTo32 == n * size;
    }
  }

  lemma ZeroNotCarved(chunks: seq<Chunk>, counts: seq<Count>, size: int)
    requires LayoutOk(chunks, counts, size)
    ensures 0 !in Carved(chunks, counts, size)
  {
    if 0 in Carved(chunks, counts, size) {
      CarvedInside(chunks, counts, size, 0);
    }
  }

  lemma TookTail(items: seq<int>, items': seq<int>, p: int)
    requires items == items' + [p] && DList.Distinct(items)
    ensures Elements(items) == Elements(items') + {p} && p !in items'
  {
    assert forall i :: 0 <= i < |items'| ==> items'[i] == items[i];
    assert items[|items'|] == p;
  }

  /** The guards against overflow in new_chunk are never needed for 32-bit sizes, and fail only for a
      single block or a block size of 0. */
  lemma ChunkSizeFits(blockSize: int, units: int)
    requires (blockSize == 0 || MinBlock <= blockSize) && blockSize % Alignment == 0
    requires blockSize < TwoTo32 && 0 <= units < TwoTo32
    ensures var chunk := ChunkSize(blockSize, units); var alloc := AllocSize(chunk);
      && chunk == blockSize * units && alloc == Request(blockSize, units) && alloc > chunk
      && (chunk > blockSize && chunk > units <==> blockSize > 0 && units > 1)
  {
    assert blockSize <= TwoTo32 - Alignment;
    Product(blockSize, units);
  }

  lemma FreshChunk(grant: int, blockSize: int, units: int)
    requires 0 < grant && grant + Request(blockSize, units) <= TwoTo64 && 0 < blockSize && 0 < units
    ensures 0 < blockSize * units && grant + HeaderSize < TwoTo64
    ensures var start, n := Align(grant + HeaderSize), blockSize * units;
      var c := Chunk(grant, Request(blockSize, units), start, start, start + n);
      ChunkOk(c, Count(0, units), blockSize) && Laid(c, grant, units, blockSize)
  {
    Scaled(0, units, blockSize);
    assert blockSize * units == units * blockSize;
    AlignIsNearest(grant + HeaderSize);
  }

  lemma Product(a: int, b: int)
    requires 0 <= a <= TwoTo32 - Alignment && 0 <= b < TwoTo32
    ensures 0 <= a * b <= (TwoTo32 - Alignment) * (TwoTo32 - 1)
    ensures a >= 2 && b >= 2 ==> a * b > a && a * b > b
    ensures b <= 1 ==> a * b <= a
  {
    NonNegative(a, b);
    Distributes(a, b, TwoTo32 - 1 - b);
    NonNegative(a, TwoTo32 - 1 - b);
    if b == 0 { assert a * b == 0; }
    if b == 1 { assert a * b == a; }
    if a >= 2 && b >= 2 {
      Distributes(a, 2, b - 2);
      Distributes(b, 2, a - 2);
      NonNegative(a, b - 2);
      NonNegative(b, a - 2);
    }
  }

  lemma Distributes(a: int, b: int, c: int)
    ensures a * (b + c) == a * b + a * c
  {
  }
}
