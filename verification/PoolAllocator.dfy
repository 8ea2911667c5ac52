/**
 MemoryPoolAllocator: blocks are bumped off the head chunk of a chain of chunks and never freed one
 by one.

 Memory is one array and a pointer is an index into it; 0 is NULL. What the base allocator answers to
 a request is a parameter. The ghost sequence `blocks` lists what has been handed out.
 */
module PoolAllocator {
  import opened Verdicts

  /** RAPIDJSON_ALIGN(sizeof(ChunkHeader)): three words. */
  const HEADER := 24

  /** A chunk: where its header lies, and its two counters. */
  datatype Chunk = Chunk(base: nat, capacity: nat, size: nat)

  datatype Block = Block(addr: nat, size: nat)

  /** RAPIDJSON_ALIGN: up to the next multiple of eight. */
  function Align(n: nat): (a: nat)
    ensures a % 8 == 0 && n <= a < n + 8
  {
    (n + 7) / 8 * 8
  }

  function Payload(c: Chunk): nat { c.base + HEADER }

  function End(c: Chunk): nat { c.base + HEADER + c.capacity }

  predicate ChunkOk(c: Chunk, limit: nat) {
    c.base > 0 && c.size % 8 == 0 && c.size <= c.capacity && End(c) <= limit
  }

  predicate Apart(c: Chunk, d: Chunk) {
    End(c) <= d.base || End(d) <= c.base
  }

  /** `b` lies in the used part of `c`, a whole number of eight bytes from its start. */
  predicate Holds(c: Chunk, b: Block) {
    Payload(c) <= b.addr && b.addr + b.size <= Payload(c) + c.size && (b.addr - c.base) % 8 == 0
  }

  predicate Disjoint(a: Block, b: Block) {
    a.addr + a.size <= b.addr || b.addr + b.size <= a.addr
  }

  ghost predicate Held(chunks: seq<Chunk>, b: Block) {
    exists i :: 0 <= i < |chunks| && Holds(chunks[i], b)
  }

  ghost predicate ChunksOk(chunks: seq<Chunk>, limit: nat) {
    && (forall i :: 0 <= i < |chunks| ==> ChunkOk(chunks[i], limit))
    && (forall i, j :: 0 <= i < j < |chunks| ==> Apart(chunks[i], chunks[j]))
  }

  ghost predicate BlocksOk(chunks: seq<Chunk>, blocks: seq<Block>) {
    && (forall i :: 0 <= i < |blocks| ==> blocks[i].size > 0 && Held(chunks, blocks[i]))
    && (forall i, j :: 0 <= i < j < |blocks| ==> Disjoint(blocks[i], blocks[j]))
  }

  /** Blocks are pairwise disjoint, in step with their chunk, and inside its used part inside memory. */
  ghost function Layout(chunks: seq<Chunk>, blocks: seq<Block>, limit: nat): Verdict {
    if ChunksOk(chunks, limit) && BlocksOk(chunks, blocks) then Sound else Broken
  }

  // ---------- One new chunk, one new block, one longer block ----------

  lemma NewChunk(chunks: seq<Chunk>, blocks: seq<Block>, limit: nat, c: Chunk)
    requires Layout(chunks, blocks, limit).Sound? && ChunkOk(c, limit)
    requires forall i :: 0 <= i < |chunks| ==> Apart(c, chunks[i])
    ensures Layout([c] + chunks, blocks, limit).Sound?
  {
    var more := [c] + chunks;
    forall k | 0 <= k < |blocks|
      ensures Held(more, blocks[k])
    {
      var i :| 0 <= i < |chunks| && Holds(chunks[i], blocks[k]);
      assert Holds(more[i + 1], blocks[k]);
    }
  }

  /** The head chunk with `n` more bytes in use. */
  function Bumped(chunks: seq<Chunk>, n: nat): seq<Chunk>
    requires chunks != []
  {
    chunks[0 := chunks[0].(size := chunks[0].size + n)]
  }

  lemma StillHeld(chunks: seq<Chunk>, n: nat, b: Block)
    requires chunks != [] && Held(chunks, b)
    ensures Held(Bumped(chunks, n), b)
  {
    var i :| 0 <= i < |chunks| && Holds(chunks[i], b);
    assert Holds(Bumped(chunks, n)[i], b);
  }

  lemma EightsAdd(a: nat, b: nat)
    requires a % 8 == 0 && b % 8 == 0
    ensures (a + b) % 8 == 0 && (b - a) % 8 == 0
  {
    var j, k := a / 8, b / 8;
    assert a == 8 * j && b == 8 * k;
    assert a + b == 8 * (j + k) && b - a == 8 * (k - j);
  }

  lemma BumpedChunkOk(c: Chunk, n: nat, limit: nat)
    requires ChunkOk(c, limit) && n % 8 == 0 && c.size + n <= c.capacity
    ensures ChunkOk(c.(size := c.size + n), limit)
  {
    EightsAdd(c.size, n);
  }

  lemma BumpedChunksOk(chunks: seq<Chunk>, n: nat, limit: nat)
    requires ChunksOk(chunks, limit) && chunks != [] && n % 8 == 0 && chunks[0].size + n <= chunks[0].capacity
    ensures ChunksOk(Bumped(chunks, n), limit)
  {
    var more := Bumped(chunks, n);
    BumpedChunkOk(chunks[0], n, limit);
    forall i | 0 <= i < |more|
      ensures ChunkOk(more[i], limit)
    {
      if i > 0 { ChunkIsOk(chunks, limit, i); }
    }
    forall i, j | 0 <= i < j < |more|
      ensures Apart(more[i], more[j])
    {
      assert Apart(chunks[i], chunks[j]);
    }
  }

  /** The free end of the head chunk is clear of every block. */
  lemma BeyondHead(chunks: seq<Chunk>, limit: nat, b: Block, n: nat)
    requires ChunksOk(chunks, limit) && chunks != [] && Held(chunks, b)
    requires chunks[0].size + n <= chunks[0].capacity
    ensures Disjoint(b, Block(Payload(chunks[0]) + chunks[0].size, n))
  {
    var i :| 0 <= i < |chunks| && Holds(chunks[i], b);
    if i > 0 { assert Apart(chunks[0], chunks[i]); }
  }

  lemma NewBlock(chunks: seq<Chunk>, blocks: seq<Block>, limit: nat, n: nat)
    requires Layout(chunks, blocks, limit).Sound? && chunks != []
    requires n > 0 && n % 8 == 0 && chunks[0].size + n <= chunks[0].capacity
    ensures Layout(Bumped(chunks, n), blocks + [Block(Payload(chunks[0]) + chunks[0].size, n)], limit).Sound?
  {
    var b := Block(Payload(chunks[0]) + chunks[0].size, n);
    BumpedChunksOk(chunks, n, limit);
    forall k | 0 <= k < |blocks|
      ensures Held(Bumped(chunks, n), blocks[k]) && Disjoint(blocks[k], b)
    {
      StillHeld(chunks, n, blocks[k]);
      BeyondHead(chunks, limit, blocks[k], n);
    }
    AtTheEnd(chunks, limit, n);
  }

  /** The block is in step with the head chunk. */
  lemma AtTheEnd(chunks: seq<Chunk>, limit: nat, n: nat)
    requires ChunksOk(chunks, limit) && chunks != []
    ensures Payload(chunks[0]) + chunks[0].size > 0
    ensures Holds(Bumped(chunks, n)[0], Block(Payload(chunks[0]) + chunks[0].size, n))
  {
    assert ChunkOk(chunks[0], limit);
    assert Payload(chunks[0]) + chunks[0].size - chunks[0].base == HEADER + chunks[0].size;
  }

  /** A block that ends where the head chunk's used part ends lies in the head chunk. */
  lemma LastIsInHead(chunks: seq<Chunk>, limit: nat, b: Block, originalSize: nat)
    requires ChunksOk(chunks, limit) && chunks != [] && Held(chunks, b) && originalSize <= b.size && 0 < b.size
    requires b.addr + originalSize == Payload(chunks[0]) + chunks[0].size
    ensures Holds(chunks[0], b) && b.size == originalSize
  {
    var i :| 0 <= i < |chunks| && Holds(chunks[i], b);
    assert i == 0 || Apart(chunks[0], chunks[i]);
  }

  lemma LongerBlock(chunks: seq<Chunk>, blocks: seq<Block>, limit: nat, k: nat, n: nat)
    requires Layout(chunks, blocks, limit).Sound? && chunks != [] && k < |blocks|
    requires n % 8 == 0 && chunks[0].size + n <= chunks[0].capacity
    requires Holds(chunks[0], blocks[k]) && blocks[k].addr + blocks[k].size == Payload(chunks[0]) + chunks[0].size
    ensures Layout(Bumped(chunks, n), blocks[k := blocks[k].(size := blocks[k].size + n)], limit).Sound?
  {
    var longer := blocks[k].(size := blocks[k].size + n);
    var more := blocks[k := longer];
    BumpedChunksOk(chunks, n, limit);
    assert Holds(Bumped(chunks, n)[0], longer);
    forall i | 0 <= i < |more|
      ensures Held(Bumped(chunks, n), more[i])
    {
      if i != k { StillHeld(chunks, n, blocks[i]); }
    }
    forall i | 0 <= i < |blocks| && i != k
      ensures Disjoint(blocks[i], longer) && Disjoint(longer, blocks[i])
    {
      assert Disjoint(blocks[i], blocks[k]);
      BeyondHead(chunks, limit, blocks[i], n);
    }
  }

  // ---------- Alignment ----------

  /** A block is aligned exactly when its chunk is: the header and all sizes are multiples of eight. */
  lemma AlignedExactly(c: Chunk, b: Block)
    requires Holds(c, b)
    ensures b.addr % 8 == 0 <==> c.base % 8 == 0
  {
    assert b.addr == c.base + (b.addr - c.base);
  }

  // ---------- Size and Capacity ----------

  function SizeOf(chunks: seq<Chunk>): nat {
    if chunks == [] then 0 else chunks[0].size + SizeOf(chunks[1..])
  }

  function CapacityOf(chunks: seq<Chunk>): nat {
    if chunks == [] then 0 else chunks[0].capacity + CapacityOf(chunks[1..])
  }

  lemma {:induction false} SizeWithinCapacity(chunks: seq<Chunk>, limit: nat)
    requires ChunksOk(chunks, limit)
    ensures SizeOf(chunks) <= CapacityOf(chunks)
  {
    if chunks != [] {
      assert ChunkOk(chunks[0], limit);
      forall i, j | 0 <= i < j < |chunks[1..]|
        ensures Apart(chunks[1..][i], chunks[1..][j])
      {
        assert Apart(chunks[i + 1], chunks[j + 1]);
      }
      SizeWithinCapacity(chunks[1..], limit);
    }
  }

  /**
   Every block of every reachable pool is aligned if and only if it does not lie in a user-supplied
   buffer whose address is no multiple of eight.
   */
  lemma BlocksAlignedExactly(chunks: seq<Chunk>, blocks: seq<Block>, userBuffer: nat, limit: nat, k: nat)
    requires Layout(chunks, blocks, limit).Sound? && UserLast(chunks, userBuffer).Sound? && k < |blocks|
    ensures blocks[k].addr % 8 == 0 <==>
      !(userBuffer % 8 != 0 && exists c :: c in chunks && c.base == userBuffer && Holds(c, blocks[k]))
  {
    BlockIsHeld(chunks, blocks, k);
    var i :| 0 <= i < |chunks| && Holds(chunks[i], blocks[k]);
    AlignedExactly(chunks[i], blocks[k]);
    if c :| c in chunks && c.base == userBuffer && Holds(c, blocks[k]) {
      AlignedExactly(c, blocks[k]);
    }
  }

  lemma ChunkIsOk(chunks: seq<Chunk>, limit: nat, i: nat)
    requires ChunksOk(chunks, limit) && i < |chunks|
    ensures ChunkOk(chunks[i], limit)
  {
  }

  /** The base allocator's promise: an aligned piece of memory clear of every chunk, or NULL. */
  ghost predicate Grants(base: nat -> nat, chunks: seq<Chunk>, limit: nat) {
    forall n :: base(n) == 0 || GrantOk(base(n), n, chunks, limit)
  }

  ghost predicate GrantOk(addr: nat, n: nat, chunks: seq<Chunk>, limit: nat) {
    && addr % 8 == 0 && addr + n <= limit
    && forall i :: 0 <= i < |chunks| ==> addr + n <= chunks[i].base || End(chunks[i]) <= addr
  }

  /** The user-supplied buffer, if there is one, is the last chunk and no other; the others are aligned. */
  ghost function UserLast(chunks: seq<Chunk>, userBuffer: nat): Verdict {
    if (forall i :: 0 <= i < |chunks| && chunks[i].base != userBuffer ==> chunks[i].base % 8 == 0)
      && (userBuffer > 0 ==> chunks != [] && chunks[|chunks| - 1].base == userBuffer)
      && (forall i :: 0 <= i < |chunks| && chunks[i].base == userBuffer ==> i == |chunks| - 1)
    then Sound else Broken
  }

  lemma UserStaysLast(chunks: seq<Chunk>, userBuffer: nat, c: Chunk, limit: nat)
    requires UserLast(chunks, userBuffer).Sound? && ChunksOk([c] + chunks, limit) && c.base % 8 == 0
    ensures UserLast([c] + chunks, userBuffer).Sound?
  {
    var more := [c] + chunks;
    assert ChunkOk(more[0], limit);
    assert chunks != [] ==> Apart(more[0], more[|chunks|]) && more[|chunks|] == chunks[|chunks| - 1];
  }

  lemma BumpKeepsUser(chunks: seq<Chunk>, userBuffer: nat, n: nat)
    requires chunks != [] && UserLast(chunks, userBuffer).Sound?
    ensures UserLast(Bumped(chunks, n), userBuffer).Sound?
  {
    var more := Bumped(chunks, n);
    forall i | 0 <= i < |more|
      ensures more[i].base == chunks[i].base
    {
    }
  }

  // ---------- What an allocation is, in numbers ----------

  /**
   `n` bytes are asked for: the next ones of the head chunk if it has room, otherwise the first ones
   of a new chunk, 24 bytes behind the address that the base allocator answers, if that is not NULL.
   */
  ghost predicate Allocates(before: seq<Chunk>, after: seq<Chunk>, n: nat, chunkCapacity: nat, base: nat -> nat,
                            p: nat)
  {
    if before != [] && before[0].size + n <= before[0].capacity then
      p == before[0].base + 24 + before[0].size && after == before[0 := before[0].(size := before[0].size + n)]
    else
      var capacity := if chunkCapacity > n then chunkCapacity else n;
      var addr := base(24 + capacity);
      if addr == 0 then p == 0 && after == before
      else p == addr + 24 && after == [Chunk(addr, capacity, n)] + before
  }

  /** The block at `original`, `os` bytes long, ends the head chunk, which has room for `ns - os` more. */
  predicate GrowsInPlace(before: seq<Chunk>, original: nat, os: nat, ns: nat) {
    && before != [] && original + os == before[0].base + 24 + before[0].size
    && before[0].size + (ns - os) <= before[0].capacity
  }

  /** The block at `original`, `os` bytes long for the caller, is to hold `ns` bytes. */
  ghost predicate Resizes(before: seq<Chunk>, after: seq<Chunk>, original: nat, os: nat, ns: nat,
                          chunkCapacity: nat, base: nat -> nat, p: nat) {
    if os >= ns then p == original && after == before
    else if GrowsInPlace(before, original, os, ns) then
      p == original && after == before[0 := before[0].(size := before[0].size + (ns - os))]
    else Allocates(before, after, ns, chunkCapacity, base, p)
  }

  ghost function Allocation(before: seq<Chunk>, after: seq<Chunk>, n: nat, chunkCapacity: nat, base: nat -> nat,
                            p: nat): Verdict
  {
    if Allocates(before, after, n, chunkCapacity, base, p) then Sound else Broken
  }

  ghost function Resizing(before: seq<Chunk>, after: seq<Chunk>, original: nat, os: nat, ns: nat,
                          chunkCapacity: nat, base: nat -> nat, p: nat): Verdict {
    if Resizes(before, after, original, os, ns, chunkCapacity, base, p) then Sound else Broken
  }

  /** `mid` is `before`, or has a new chunk where there was no room. */
  ghost function Room(before: seq<Chunk>, mid: seq<Chunk>, n: nat, chunkCapacity: nat, base: nat -> nat): Verdict {
    if before != [] && before[0].size + n <= before[0].capacity then if mid == before then Sound else Broken
    else
      var capacity := if chunkCapacity > n then chunkCapacity else n;
      var addr := base(HEADER + capacity);
      if addr != 0 && mid == [Chunk(addr, capacity, 0)] + before then Sound else Broken
  }

  lemma RoomThenBump(before: seq<Chunk>, mid: seq<Chunk>, n: nat, chunkCapacity: nat, base: nat -> nat)
    requires Room(before, mid, n, chunkCapacity, base).Sound?
    ensures mid != []
    ensures Allocation(before, Bumped(mid, n), n, chunkCapacity, base, Payload(mid[0]) + mid[0].size).Sound?
  {
    if mid != before {
      assert Bumped(mid, n) == [Chunk(mid[0].base, mid[0].capacity, n)] + before;
    }
  }

  /** The blocks handed out after a resize of `blocks[k]`. */
  ghost predicate Hands(chunks: seq<Chunk>, before: seq<Block>, after: seq<Block>, k: nat, original: nat,
                        os: nat, ns: nat, p: nat)
  {
    if os >= ns then p == original && after == before
    else if GrowsInPlace(chunks, original, os, ns) then
      p == original && k < |before| && after == before[k := Block(original, ns)]
    else p != original && after == if p != 0 then before + [Block(p, ns)] else before
  }

  ghost function Handed(chunks: seq<Chunk>, before: seq<Block>, after: seq<Block>, k: nat, original: nat,
                        os: nat, ns: nat, p: nat): Verdict
  {
    if Hands(chunks, before, after, k, original, os, ns, p) then Sound else Broken
  }

  /** No byte of a block has changed. */
  ghost predicate Untouched(blocks: seq<Block>, before: seq<bv8>, after: seq<bv8>) {
    |before| == |after| && forall i, a ::
      0 <= i < |blocks| && blocks[i].addr <= a < blocks[i].addr + blocks[i].size ==>
        a < |after| && after[a] == before[a]
  }

  lemma AlignTwice(n: nat)
    requires n % 8 == 0
    ensures Align(n) == n
  {
  }

  /** A successful allocation adds its size to Size(), and a new chunk's capacity to Capacity(). */
  lemma AllocationIsCounted(before: seq<Chunk>, after: seq<Chunk>, n: nat, chunkCapacity: nat, base: nat -> nat, p: nat)
    requires Allocation(before, after, n, chunkCapacity, base, p).Sound? && p != 0
    ensures SizeOf(after) == SizeOf(before) + n
    ensures CapacityOf(after) == CapacityOf(before)
      + if before != [] && before[0].size + n <= before[0].capacity then 0
        else if chunkCapacity > n then chunkCapacity else n
  {
    if before != [] && before[0].size + n <= before[0].capacity {
      assert after[1..] == before[1..];
    } else {
      assert after[1..] == before;
    }
  }

  /** The `n` bytes at `to` are the bytes that were at `from`. */
  predicate Copied(before: seq<bv8>, after: seq<bv8>, to: nat, from: nat, n: nat) {
    to + n <= |after| && from + n <= |before| && after[to..to + n] == before[from..from + n]
  }

  lemma CopiedPrefix(before: seq<bv8>, after: seq<bv8>, to: nat, from: nat, n: nat, m: nat)
    requires Copied(before, after, to, from, n) && m <= n
    ensures Copied(before, after, to, from, m)
  {
    assert after[to..to + m] == after[to..to + n][..m];
    assert before[from..from + m] == before[from..from + n][..m];
  }

  class MemoryPool {
    const mem: array<bv8>
    const chunkCapacity: nat
    const userBuffer: nat          // 0 without a user-supplied buffer
    var chunks: seq<Chunk>         // the head chunk first
    ghost var blocks: seq<Block>

    ghost predicate Valid()
      reads this
    {
      && Layout(chunks, blocks, mem.Length).Sound?
      && UserLast(chunks, userBuffer).Sound?
    }

    constructor (mem: array<bv8>, chunkCapacity: nat)
      ensures Valid() && this.mem == mem && this.chunkCapacity == chunkCapacity && userBuffer == 0
      ensures chunks == [] && blocks == []
    {
      this.mem, this.chunkCapacity, userBuffer := mem, chunkCapacity, 0;
      chunks, blocks := [], [];
    }

    /** The constructor with a user-supplied buffer, which becomes the first chunk. */
    constructor OverBuffer(mem: array<bv8>, buffer: nat, size: nat, chunkCapacity: nat)
      requires buffer > 0 && size > HEADER && buffer + size <= mem.Length
      ensures Valid() && this.mem == mem && this.chunkCapacity == chunkCapacity && userBuffer == buffer
      ensures chunks == [Chunk(buffer, size - HEADER, 0)] && blocks == []
    {
      this.mem, this.chunkCapacity, userBuffer := mem, chunkCapacity, buffer;
      chunks, blocks := [Chunk(buffer, size - HEADER, 0)], [];
    }

    /** AddChunk. */
    method AddChunk(capacity: nat, base: nat -> nat) returns (ok: bool)
      requires Valid() && Grants(base, chunks, mem.Length)
      modifies `chunks
      ensures Valid() && (ok <==> base(HEADER + capacity) != 0)
      ensures chunks == (if ok then [Chunk(base(HEADER + capacity), capacity, 0)] else []) + old(chunks)
    {
      var addr := base(HEADER + capacity);
      if addr == 0 {
        return false;
      }
      var c := Chunk(addr, capacity, 0);
      assert GrantOk(addr, HEADER + capacity, chunks, mem.Length);
      NewChunk(chunks, blocks, mem.Length, c);
      UserStaysLast(chunks, userBuffer, c, mem.Length);
      chunks := [c] + chunks;
      ok := true;
    }

    /** The middle of Malloc: a head chunk with room for `n` bytes. */
    method MakeRoom(n: nat, base: nat -> nat) returns (ok: bool)
      requires Valid() && Grants(base, chunks, mem.Length)
      modifies `chunks
      ensures Valid() && (ok ==> chunks != [] && chunks[0].size + n <= chunks[0].capacity)
      ensures ok ==> Room(old(chunks), chunks, n, chunkCapacity, base).Sound?
      ensures !ok ==> chunks == old(chunks) && Allocation(chunks, chunks, n, chunkCapacity, base, 0).Sound?
    {
      ok := true;
      if chunks == [] || chunks[0].size + n > chunks[0].capacity {
        ok := AddChunk(if chunkCapacity > n then chunkCapacity else n, base);
      }
    }

    /** Malloc. */
    method Malloc(size: nat, base: nat -> nat) returns (p: nat)
      requires Valid() && Grants(base, chunks, mem.Length)
      modifies `chunks, `blocks
      ensures Valid() && (size == 0 ==> p == 0)
      ensures p == 0 ==> blocks == old(blocks) && chunks == old(chunks)
      ensures p != 0 ==> blocks == old(blocks) + [Block(p, Align(size))]
      ensures p != 0 ==> chunks != [] && p + Align(size) == Payload(chunks[0]) + chunks[0].size
      ensures size > 0 && old(chunks) != [] && old(chunks)[0].size + Align(size) <= old(chunks)[0].capacity ==>
        p == Payload(old(chunks)[0]) + old(chunks)[0].size
      ensures p == 0 && size > 0 && chunks != [] ==> chunks[0].size + Align(size) > chunks[0].capacity
      ensures p == 0 && size > 0 ==>
        base(HEADER + if chunkCapacity > Align(size) then chunkCapacity else Align(size)) == 0
      ensures size > 0 ==> Allocation(old(chunks), chunks, Align(size), chunkCapacity, base, p).Sound?
    {
      if size == 0 {
        return 0;
      }
      p := Take(Align(size), base);
    }

    /** Malloc of a rounded size. */
    method Take(n: nat, base: nat -> nat) returns (p: nat)
      requires Valid() && Grants(base, chunks, mem.Length) && n > 0 && n % 8 == 0
      modifies `chunks, `blocks
      ensures Valid() && Allocation(old(chunks), chunks, n, chunkCapacity, base, p).Sound?
      ensures p == 0 ==> chunks == old(chunks)
      ensures blocks == if p != 0 then old(blocks) + [Block(p, n)] else old(blocks)
    {
      ghost var before := chunks;
      var ok := MakeRoom(n, base);
      if !ok {
        return 0;
      }
      ghost var mid := chunks;
      p := Bump(n);
      RoomThenBump(before, mid, n, chunkCapacity, base);
    }

    /** The tail of Malloc: the next bytes of the head chunk. */
    method Bump(n: nat) returns (p: nat)
      requires Valid() && chunks != [] && n > 0 && n % 8 == 0 && chunks[0].size + n <= chunks[0].capacity
      modifies `chunks, `blocks
      ensures Valid() && p != 0
      ensures p == Payload(old(chunks)[0]) + old(chunks)[0].size && chunks == Bumped(old(chunks), n)
      ensures Holds(chunks[0], Block(p, n))
      ensures blocks == old(blocks) + [Block(p, n)]
    {
      p := Payload(chunks[0]) + chunks[0].size;
      NewBlock(chunks, blocks, mem.Length, n);
      BumpKeepsUser(chunks, userBuffer, n);
      AtTheEnd(chunks, mem.Length, n);
      blocks := blocks + [Block(p, n)];
      chunks := Bumped(chunks, n);
    }

    /** memcpy between two blocks that do not overlap. */
    method Copy(to: nat, from: nat, n: nat)
      requires to + n <= mem.Length && from + n <= mem.Length && Disjoint(Block(to, n), Block(from, n))
      modifies mem
      ensures Copied(old(mem[..]), mem[..], to, from, n)
      ensures forall a :: 0 <= a < mem.Length && !(to <= a < to + n) ==> mem[a] == old(mem[a])
    {
      var k := 0;
      while k < n
        invariant k <= n
        invariant forall a :: to <= a < to + k ==> mem[a] == old(mem[a - to + from])
        invariant forall a :: 0 <= a < mem.Length && !(to <= a < to + k) ==> mem[a] == old(mem[a])
      {
        mem[to + k] := mem[from + k];
        k := k + 1;
      }
      ghost var now, was := mem[..][to..to + n], old(mem[..])[from..from + n];
      forall i | 0 <= i < n
        ensures now[i] == was[i]
      {
        assert mem[to + i] == old(mem[to + i - to + from]);
      }
      assert now == was;
    }

    /** Whether the head chunk ends with a block of the given size at `p`. */
    predicate EndsHead(p: nat, originalSize: nat)
      reads this
    {
      chunks != [] && p + originalSize == Payload(chunks[0]) + chunks[0].size
    }

    /** Growing the last block of the head chunk in place. */
    method GrowLast(ghost k: nat, p: nat, originalSize: nat, newSize: nat)
      requires Valid() && k < |blocks| && blocks[k].addr == p && originalSize <= blocks[k].size
      requires EndsHead(p, originalSize) && originalSize <= newSize && (newSize - originalSize) % 8 == 0
      requires chunks[0].size + (newSize - originalSize) <= chunks[0].capacity
      modifies `chunks, `blocks
      ensures Valid() && chunks == Bumped(old(chunks), newSize - originalSize)
      ensures blocks == old(blocks)[k := Block(p, newSize)]
    {
      var n := newSize - originalSize;
      BlockIsHeld(chunks, blocks, k);
      LastIsInHead(chunks, mem.Length, blocks[k], originalSize);
      LongerBlock(chunks, blocks, mem.Length, k, n);
      BumpKeepsUser(chunks, userBuffer, n);
      blocks := blocks[k := Block(p, newSize)];
      chunks := Bumped(chunks, n);
    }

    /**
     Realloc of the block `blocks[k]`, which may be longer than the caller's `originalSize` says.
     The old contents are found at the new place whether the block stays, grows or moves, and no
     byte of any block handed out before changes.
     */
    method Realloc(ghost k: nat, originalPtr: nat, originalSize: nat, newSize: nat, base: nat -> nat) returns (p: nat)
      requires Valid() && Grants(base, chunks, mem.Length)
      requires originalPtr != 0 ==>
        k < |blocks| && blocks[k].addr == originalPtr && Align(originalSize) <= blocks[k].size
      modifies `chunks, `blocks, mem
      ensures Valid() && (newSize == 0 ==> p == 0)
      ensures p == 0 ==> blocks == old(blocks) && chunks == old(chunks)
      ensures p != 0 && originalPtr == 0 ==> blocks == old(blocks) + [Block(p, Align(newSize))]
      ensures p != 0 && originalPtr != 0 && p == originalPtr ==>
        blocks == old(blocks) || blocks == old(blocks)[k := Block(p, Align(newSize))]
      ensures p != 0 && originalPtr != 0 && p == originalPtr ==> Align(newSize) <= blocks[k].size
      ensures p != 0 && originalPtr != 0 && p != originalPtr ==> blocks == old(blocks) + [Block(p, Align(newSize))]
      ensures originalPtr == 0 && newSize > 0 ==>
        Allocation(old(chunks), chunks, Align(newSize), chunkCapacity, base, p).Sound?
      ensures originalPtr != 0 && newSize > 0 ==>
        Resizing(old(chunks), chunks, originalPtr, Align(originalSize), Align(newSize), chunkCapacity, base, p).Sound?
      ensures originalPtr != 0 && newSize > 0 ==>
        Handed(old(chunks), old(blocks), blocks, k, originalPtr, Align(originalSize), Align(newSize), p).Sound?
      ensures p != 0 && originalPtr != 0 ==> Copied(old(mem[..]), mem[..], p, originalPtr, originalSize)
      ensures Untouched(old(blocks), old(mem[..]), mem[..])
    {
      AllInMemory(chunks, blocks, mem.Length);
      if originalPtr == 0 {
        p := Malloc(newSize, base);
        return;
      }
      if newSize == 0 {
        return 0;
      }
      var os, ns := Align(originalSize), Align(newSize);
      p := Resize(k, originalPtr, os, ns, base);
      if p != 0 { CopiedPrefix(old(mem[..]), mem[..], p, originalPtr, os, originalSize); }
    }

    /** Realloc of a block that is there, with both sizes rounded. */
    method Resize(ghost k: nat, originalPtr: nat, os: nat, ns: nat, base: nat -> nat) returns (p: nat)
      requires Valid() && Grants(base, chunks, mem.Length) && 0 < ns && ns % 8 == 0 && os % 8 == 0
      requires k < |blocks| && blocks[k].addr == originalPtr && os <= blocks[k].size && originalPtr != 0
      modifies `chunks, `blocks, mem
      ensures Valid() && Resizing(old(chunks), chunks, originalPtr, os, ns, chunkCapacity, base, p).Sound?
      ensures Handed(old(chunks), old(blocks), blocks, k, originalPtr, os, ns, p).Sound?
      ensures p == 0 ==> chunks == old(chunks)
      ensures p != 0 ==> Copied(old(mem[..]), mem[..], p, originalPtr, os)
      ensures Untouched(old(blocks), old(mem[..]), mem[..])
    {
      AllInMemory(chunks, blocks, mem.Length);
      assert blocks[k].addr + blocks[k].size <= mem.Length;
      if os >= ns {
        return originalPtr;
      }
      if EndsHead(originalPtr, os) && chunks[0].size + (ns - os) <= chunks[0].capacity {
        EightsAdd(os, ns);
        GrowLast(k, originalPtr, os, ns);
        return originalPtr;
      }
      p := Move(k, originalPtr, os, ns, base);
    }

    /** The last part of Realloc: allocate, then copy. */
    method Move(ghost k: nat, originalPtr: nat, os: nat, ns: nat, base: nat -> nat) returns (p: nat)
      requires Valid() && Grants(base, chunks, mem.Length) && 0 < ns && ns % 8 == 0
      requires k < |blocks| && blocks[k].addr == originalPtr && os <= blocks[k].size && os < ns
      modifies `chunks, `blocks, mem
      ensures Valid() && Allocation(old(chunks), chunks, ns, chunkCapacity, base, p).Sound?
      ensures p == 0 ==> chunks == old(chunks)
      ensures blocks == if p != 0 then old(blocks) + [Block(p, ns)] else old(blocks)
      ensures p != 0 ==> p != originalPtr && Copied(old(mem[..]), mem[..], p, originalPtr, os)
      ensures Untouched(old(blocks), old(mem[..]), mem[..])
    {
      AllInMemory(chunks, blocks, mem.Length);
      ghost var before := blocks;
      AlignTwice(ns);
      p := Malloc(ns, base);
      if p != 0 {
        NewIsApart(chunks, before, mem.Length, Block(p, ns));
        BlockIsHeld(chunks, blocks, k);
        Copy(p, originalPtr, os);
      }
    }

    /** Clear: every chunk but the user-supplied buffer goes back to the base allocator. */
    method Clear()
      requires Valid()
      modifies `chunks, `blocks
      ensures Valid() && blocks == []
      ensures chunks == if userBuffer > 0 then [old(chunks)[|old(chunks)| - 1].(size := 0)] else []
    {
      blocks := [];
      while chunks != [] && chunks[0].base != userBuffer
        invariant blocks == [] && |chunks| <= |old(chunks)| && chunks == old(chunks)[|old(chunks)| - |chunks|..]
        invariant UserLast(chunks, userBuffer).Sound? && ChunksOk(chunks, mem.Length)
        decreases |chunks|
      {
        TailIsOk(chunks, userBuffer, mem.Length);
        chunks := chunks[1..];
      }
      if chunks != [] && chunks[0].base == userBuffer {
        UserAlone(chunks, userBuffer, mem.Length);
        chunks := chunks[0 := chunks[0].(size := 0)];
      }
    }

    /** Size: bytes in use. */
    method Size() returns (size: nat)
      requires Valid()
      ensures size == SizeOf(chunks) <= CapacityOf(chunks)
    {
      size := 0;
      var i := 0;
      assert chunks[0..] == chunks;
      while i < |chunks|
        invariant i <= |chunks| && size + SizeOf(chunks[i..]) == SizeOf(chunks)
      {
        size := size + chunks[i].size;
        assert chunks[i..][1..] == chunks[i + 1..];
        i := i + 1;
      }
      SizeWithinCapacity(chunks, mem.Length);
    }

    /** Capacity: bytes in all chunks. */
    method Capacity() returns (capacity: nat)
      requires Valid()
      ensures capacity == CapacityOf(chunks)
    {
      capacity := 0;
      var i := 0;
      assert chunks[0..] == chunks;
      while i < |chunks|
        invariant i <= |chunks| && capacity + CapacityOf(chunks[i..]) == CapacityOf(chunks)
      {
        capacity := capacity + chunks[i].capacity;
        assert chunks[i..][1..] == chunks[i + 1..];
        i := i + 1;
      }
    }
  }

  /** The odd case: a pool over a buffer at address 1 hands out an odd block. */
  method OddBufferGivesOddBlock(mem: array<bv8>, base: nat -> nat) returns (p: nat)
    requires mem.Length >= 40
    requires forall n :: base(n) == 0
    ensures p == 25
  {
    var pool := new MemoryPool.OverBuffer(mem, 1, 39, 64);
    p := pool.Malloc(8, base);
  }

  lemma BlockIsHeld(chunks: seq<Chunk>, blocks: seq<Block>, k: nat)
    requires BlocksOk(chunks, blocks) && k < |blocks|
    ensures Held(chunks, blocks[k]) && blocks[k].size > 0
  {
  }

  lemma InMemory(chunks: seq<Chunk>, limit: nat, b: Block)
    requires ChunksOk(chunks, limit) && Held(chunks, b)
    ensures b.addr > 0 && b.addr + b.size <= limit
  {
    var i :| 0 <= i < |chunks| && Holds(chunks[i], b);
    assert ChunkOk(chunks[i], limit);
  }

  lemma AllInMemory(chunks: seq<Chunk>, blocks: seq<Block>, limit: nat)
    requires Layout(chunks, blocks, limit).Sound?
    ensures forall i :: 0 <= i < |blocks| ==> 0 < blocks[i].addr && blocks[i].addr + blocks[i].size <= limit
  {
    forall i | 0 <= i < |blocks|
      ensures 0 < blocks[i].addr && blocks[i].addr + blocks[i].size <= limit
    {
      InMemory(chunks, limit, blocks[i]);
    }
  }

  /** The newest block overlaps no other one. */
  lemma NewIsApart(chunks: seq<Chunk>, before: seq<Block>, limit: nat, b: Block)
    requires Layout(chunks, before + [b], limit).Sound?
    ensures forall i :: 0 <= i < |before| ==> Disjoint(before[i], b)
    ensures 0 < b.addr && b.addr + b.size <= limit
  {
    var all := before + [b];
    AllInMemory(chunks, all, limit);
    assert all[|before|] == b;
    forall i | 0 <= i < |before|
      ensures Disjoint(before[i], b)
    {
      assert Disjoint(all[i], all[|before|]);
    }
  }

  /** When the user-supplied buffer heads the chain it is the whole chain. */
  lemma UserAlone(chunks: seq<Chunk>, userBuffer: nat, limit: nat)
    requires chunks != [] && chunks[0].base == userBuffer
    requires UserLast(chunks, userBuffer).Sound? && ChunksOk(chunks, limit)
    ensures |chunks| == 1 && userBuffer > 0
    ensures var emptied := [chunks[0].(size := 0)];
      chunks[0 := chunks[0].(size := 0)] == emptied
      && Layout(emptied, [], limit).Sound? && UserLast(emptied, userBuffer).Sound?
  {
    ChunkIsOk(chunks, limit, 0);
  }

  lemma TailIsOk(chunks: seq<Chunk>, userBuffer: nat, limit: nat)
    requires chunks != [] && chunks[0].base != userBuffer
    requires UserLast(chunks, userBuffer).Sound? && ChunksOk(chunks, limit)
    ensures UserLast(chunks[1..], userBuffer).Sound? && ChunksOk(chunks[1..], limit)
  {
    var rest := chunks[1..];
    forall i | 0 <= i < |rest|
      ensures rest[i] == chunks[i + 1]
    {
    }
  }
}
