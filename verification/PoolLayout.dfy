/** How src/mempool.c lays blocks out in memory: alignment, the chunks and the blocks carved from them.
    Addresses and sizes are those of a 64-bit machine. */
module PoolLayout {

  const Alignment: int := 8
  const HeaderSize: int := 24
  const MinBlock: int := 16
  const TwoTo32: int := 0x1_0000_0000
  const TwoTo64: int := 0x1_0000_0000_0000_0000

  /** _Align: its own test for values that are aligned already holds exactly of those below 8. */
  function Align(p: int): int
    requires 0 <= p < TwoTo64
  {
    if p % Alignment == p then p else (p + Alignment - 1) % TwoTo64 / Alignment * Alignment
  }

  lemma AlignIsNearest(p: int)
    requires 0 <= p <= TwoTo64 - Alignment
    ensures Alignment <= p ==> p <= Align(p) < p + Alignment && Align(p) % Alignment == 0
    ensures Align(p) % Alignment == 0 <==> p == 0 || p >= Alignment
  {
    if p >= Alignment {
      assert p % Alignment != p;
    }
  }

  /** The block size a pool really uses; the conversion to 32 bits turns sizes near the limit into 0. */
  function Rounded(blockSize: int): int
    requires 0 <= blockSize < TwoTo32
  {
    Align(if blockSize < MinBlock then MinBlock else blockSize) % TwoTo32
  }

  lemma RoundedFits(blockSize: int)
    requires 0 <= blockSize < TwoTo32
    ensures Rounded(blockSize) == 0 <==> blockSize > TwoTo32 - Alignment
    ensures blockSize <= TwoTo32 - Alignment ==> var r := Rounded(blockSize);
      MinBlock <= r && blockSize <= r && r % Alignment == 0 && (r == MinBlock || r < blockSize + Alignment)
  {
    AlignIsNearest(if blockSize < MinBlock then MinBlock else blockSize);
  }

  lemma Scaled(a: nat, b: nat, size: int)
    requires a <= b && size > 0
    ensures 0 <= a * size <= b * size
    ensures a < b ==> a * size + size <= b * size
  {
    NonNegative(a, size);
    NonNegative(b - a, size);
    assert b * size == a * size + (b - a) * size;
    if a < b {
      NonNegative(b - a - 1, size);
      assert (b - a) * size == (b - a - 1) * size + size;
    }
  }

  lemma NonNegative(a: nat, b: nat)
    ensures a * b >= 0
  {
  }

  // ----- the blocks of one chunk

  /** The first n blocks from start on. */
  ghost function Blocks(start: int, n: nat, size: int): (r: set<int>)
    ensures n == 0 ==> r == {}
  {
    if n == 0 then {} else Blocks(start, n - 1, size) + {start + (n - 1) * size}
  }

  /** The blocks at x and y do not overlap. */
  ghost predicate Clear(x: int, y: int, size: int) { x + size <= y || y + size <= x }

  /** No two blocks overlap. */
  ghost predicate Separated(blocks: set<int>, size: int) {
    forall x, y :: x in blocks && y in blocks && x != y ==> Clear(x, y, size)
  }

  lemma {:induction false} BlockBounds(start: int, n: nat, size: int, p: int)
    requires p in Blocks(start, n, size) && size > 0
    ensures start <= p && p + size <= start + n * size
    ensures start % Alignment == 0 && size % Alignment == 0 ==> p % Alignment == 0
  {
    assert (n - 1) * size + size == n * size;
    if p in Blocks(start, n - 1, size) {
      BlockBounds(start, n - 1, size, p);
    } else {
      assert (n - 1) * size >= 0;
      if start % Alignment == 0 && size % Alignment == 0 {
        assert (n - 1) * size == (n - 1) * (size / Alignment) * Alignment;
      }
    }
  }

  lemma {:induction false} BlocksSeparated(start: int, n: nat, size: int)
    requires size > 0
    ensures Separated(Blocks(start, n, size), size) && |Blocks(start, n, size)| == n
  {
    if n > 0 {
      BlocksSeparated(start, n - 1, size);
      var before, last := Blocks(start, n - 1, size), start + (n - 1) * size;
      forall x | x in before ensures Clear(x, last, size) && x != last {
        BlockBounds(start, n - 1, size, x);
      }
    }
  }

  // ----- the chunks of a pool

  /** A memchunk at address base of memory of the given size; blocks lie between start and end, and those
      below free have been carved. */
  datatype Chunk = Chunk(base: int, size: int, start: int, free: int, end: int)

  /** How many blocks of a chunk have been carved, and how many it holds. */
  datatype Count = Count(used: nat, units: nat)

  ghost predicate ChunkOk(c: Chunk, n: Count, size: int) {
    && 0 < c.base && c.base + HeaderSize <= c.start && c.start % Alignment == 0
    && n.used <= n.units && c.free == c.start + n.used * size
    && c.end == c.start + n.units * size && c.end <= c.base + c.size <= TwoTo64
  }

  ghost predicate Apart(c: Chunk, d: Chunk) {
    c.base + c.size <= d.base || d.base + d.size <= c.base
  }

  /** The chunks do not overlap, and all but the latest have been carved up completely. */
  ghost predicate LayoutOk(chunks: seq<Chunk>, counts: seq<Count>, size: int) {
    && |chunks| == |counts| && MinBlock <= size && size % Alignment == 0
    && (forall i :: 0 <= i < |chunks| ==> ChunkOk(chunks[i], counts[i], size))
    && (forall i, j :: 0 <= i < j < |chunks| ==> Apart(chunks[i], chunks[j]))
    && (forall i :: 0 < i < |chunks| ==> counts[i].used == counts[i].units)
  }

  /** Every block carved so far. */
  ghost function Carved(chunks: seq<Chunk>, counts: seq<Count>, size: int): set<int>
    requires |chunks| == |counts|
  {
    if chunks == [] then {}
    else Blocks(chunks[0].start, counts[0].used, size) + Carved(chunks[1..], counts[1..], size)
  }

  ghost function Total(counts: seq<Count>): nat {
    if counts == [] then 0 else counts[0].used + Total(counts[1..])
  }

  /** All blocks there are, carved or not. */
  ghost function AllBlocks(chunks: seq<Chunk>, counts: seq<Count>, size: int): set<int>
    requires |chunks| == |counts|
  {
    if chunks == [] then {}
    else Blocks(chunks[0].start, counts[0].units, size) + AllBlocks(chunks[1..], counts[1..], size)
  }

  /** p is an aligned block inside the memory of one of the chunks, clear of the chunk's own header. */
  ghost predicate InSome(chunks: seq<Chunk>, size: int, p: int) {
    exists i :: 0 <= i < |chunks| && Inside(chunks[i], size, p)
  }

  ghost predicate Inside(c: Chunk, size: int, p: int) {
    c.base + HeaderSize <= p && p + size <= c.end <= c.base + c.size && p % Alignment == 0 && p != 0
  }

  lemma RestOk(chunks: seq<Chunk>, counts: seq<Count>, size: int)
    requires LayoutOk(chunks, counts, size) && chunks != []
    ensures LayoutOk(chunks[1..], counts[1..], size)
  {
  }

  lemma FirstInside(c: Chunk, n: Count, size: int, p: int)
    requires ChunkOk(c, n, size) && p in Blocks(c.start, n.used, size) && size > 0 && size % Alignment == 0
    ensures Inside(c, size, p) && p + size <= c.free
  {
    BlockBounds(c.start, n.used, size, p);
    assert (n.units - n.used) * size >= 0;
  }

  lemma {:induction false} CarvedInside(chunks: seq<Chunk>, counts: seq<Count>, size: int, p: int)
    requires LayoutOk(chunks, counts, size) && p in Carved(chunks, counts, size)
    ensures InSome(chunks, size, p)
  {
    if p in Blocks(chunks[0].start, counts[0].used, size) {
      FirstInside(chunks[0], counts[0], size, p);
    } else {
      RestOk(chunks, counts, size);
      CarvedInside(chunks[1..], counts[1..], size, p);
      var i :| 0 <= i < |chunks| - 1 && Inside(chunks[1..][i], size, p);
      assert Inside(chunks[i + 1], size, p);
    }
  }

  /** A block of the later chunks lies clear of the first one. */
  lemma ClearOfFirst(chunks: seq<Chunk>, counts: seq<Count>, size: int, p: int)
    requires LayoutOk(chunks, counts, size) && chunks != [] && p in Carved(chunks[1..], counts[1..], size)
    ensures p + size <= chunks[0].base || chunks[0].base + chunks[0].size <= p
  {
    RestOk(chunks, counts, size);
    CarvedInside(chunks[1..], counts[1..], size, p);
    var i :| 0 <= i < |chunks| - 1 && Inside(chunks[1..][i], size, p);
    assert Apart(chunks[0], chunks[i + 1]);
  }

  /** The carved blocks do not overlap, and there are as many as the chunks have given. */
  lemma {:induction false} CarvedSeparated(chunks: seq<Chunk>, counts: seq<Count>, size: int)
    requires LayoutOk(chunks, counts, size)
    ensures Separated(Carved(chunks, counts, size), size) && |Carved(chunks, counts, size)| == Total(counts)
  {
    if chunks != [] {
      RestOk(chunks, counts, size);
      assert size > 0;
      CarvedSeparated(chunks[1..], counts[1..], size);
      hide LayoutOk, Separated, Clear, Blocks;
      var here, rest := Blocks(chunks[0].start, counts[0].used, size), Carved(chunks[1..], counts[1..], size);
      BlocksSeparated(chunks[0].start, counts[0].used, size);
      FirstApart(chunks, counts, size);
      UnionSeparated(here, rest, size);
    }
  }

  lemma UnionSeparated(a: set<int>, b: set<int>, size: int)
    requires Separated(a, size) && Separated(b, size)
    requires a !! b && forall x, y :: x in a && y in b ==> Clear(x, y, size)
    ensures Separated(a + b, size) && |a + b| == |a| + |b|
  {
    forall x, y | x in a + b && y in a + b && x != y ensures Clear(x, y, size) {
      if x in b && y in a { assert Clear(y, x, size); }
    }
    assert a * b == {};
  }

  /** The blocks of the first chunk lie clear of the others. */
  lemma FirstApart(chunks: seq<Chunk>, counts: seq<Count>, size: int)
    requires LayoutOk(chunks, counts, size) && chunks != []
    ensures forall x, y :: x in Blocks(chunks[0].start, counts[0].used, size) && y in Carved(chunks[1..], counts[1..], size) ==>
      Clear(x, y, size)
    ensures Blocks(chunks[0].start, counts[0].used, size) !! Carved(chunks[1..], counts[1..], size)
  {
    var here, rest := Blocks(chunks[0].start, counts[0].used, size), Carved(chunks[1..], counts[1..], size);
    assert ChunkOk(chunks[0], counts[0], size) && MinBlock <= size && size % Alignment == 0;
    hide Blocks, Carved, ChunkOk;
    forall x, y | x in here && y in rest ensures Clear(x, y, size) {
      FirstInside(chunks[0], counts[0], size, x);
      ClearOfFirst(chunks, counts, size, y);
    }
    forall x | x in here ensures x !in rest {
      FirstInside(chunks[0], counts[0], size, x);
      if x in rest { ClearOfFirst(chunks, counts, size, x); }
    }
  }

  /** Carving the next block of the latest chunk. */
  function CarveOne(c: Chunk, size: int): Chunk { c.(free := c.free + size) }

  ghost predicate IsCarved(chunks: seq<Chunk>, counts: seq<Count>, size: int, chunks': seq<Chunk>, counts': seq<Count>) {
    && chunks != [] && |chunks| == |counts|
    && chunks' == [CarveOne(chunks[0], size)] + chunks[1..]
    && counts' == [counts[0].(used := counts[0].used + 1)] + counts[1..]
  }

  lemma CarveKeepsLayout(chunks: seq<Chunk>, counts: seq<Count>, size: int, chunks': seq<Chunk>, counts': seq<Count>)
    requires LayoutOk(chunks, counts, size) && IsCarved(chunks, counts, size, chunks', counts') && chunks[0].free < chunks[0].end
    ensures LayoutOk(chunks', counts', size)
  {
    HasRoom(chunks[0], counts[0], size);
    assert ChunkOk(chunks[0], counts[0], size);
    assert (counts[0].used + 1) * size == counts[0].used * size + size;
    assert ChunkOk(chunks'[0], counts'[0], size);
    hide ChunkOk;
    forall i, j | 0 <= i < j < |chunks'| ensures Apart(chunks'[i], chunks'[j]) {
      assert Apart(chunks[i], chunks[j]);
    }
  }

  lemma CarveAddsOne(chunks: seq<Chunk>, counts: seq<Count>, size: int, chunks': seq<Chunk>, counts': seq<Count>)
    requires LayoutOk(chunks, counts, size) && IsCarved(chunks, counts, size, chunks', counts') && chunks[0].free < chunks[0].end
    ensures Carved(chunks', counts', size) == Carved(chunks, counts, size) + {chunks[0].free}
    ensures chunks[0].free !in Carved(chunks, counts, size)
  {
    var c, n := chunks[0], counts[0];
    assert ChunkOk(c, n, size);
    Scaled(n.used, n.units, size);
    assert c.base < c.free < c.base + c.size && c.free == c.start + n.used * size;
    hide ChunkOk, LayoutOk;
    assert chunks'[1..] == chunks[1..] && counts'[1..] == counts[1..];
    if c.free in Blocks(c.start, n.used, size) {
      FirstInside(c, n, size, c.free);
    }
    if c.free in Carved(chunks[1..], counts[1..], size) {
      ClearOfFirst(chunks, counts, size, c.free);
    }
  }

  /** The test of alloc_from_chunk is exact: there is room for a whole block or for none. */
  lemma HasRoom(c: Chunk, n: Count, size: int)
    requires ChunkOk(c, n, size) && size > 0
    ensures c.free < c.end <==> n.used < n.units
  {
    Scaled(n.used, n.units, size);
  }

  /** Putting a new, untouched chunk in front. */
  lemma AddChunk(chunks: seq<Chunk>, counts: seq<Count>, size: int, c: Chunk, n: Count)
    requires LayoutOk(chunks, counts, size) && ChunkOk(c, n, size) && n.used == 0
    requires forall i :: 0 <= i < |chunks| ==> Apart(c, chunks[i])
    requires chunks != [] ==> counts[0].used == counts[0].units
    ensures LayoutOk([c] + chunks, [n] + counts, size)
    ensures Carved([c] + chunks, [n] + counts, size) == Carved(chunks, counts, size)
  {
    assert ([c] + chunks)[1..] == chunks && ([n] + counts)[1..] == counts;
  }

  lemma {:induction false} AllCarved(chunks: seq<Chunk>, counts: seq<Count>, size: int)
    requires |chunks| == |counts| && forall i :: 0 <= i < |counts| ==> counts[i].used == counts[i].units
    ensures Carved(chunks, counts, size) == AllBlocks(chunks, counts, size)
  {
    if chunks != [] { AllCarved(chunks[1..], counts[1..], size); }
  }
}
