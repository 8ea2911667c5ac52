/** FastCRC32: CRC-32 (section 8 of RFC 1952) and the POSIX cksum CRC, in software. */
module Crc32 {
  import opened ByteOrder
  import opened CrcSlices
  import opened CrcBits

  /** 0x04c11db7 with its bits in reverse order. */
  const CRC32_POLY: bv32 := 0xedb88320
  const CKSUM_POLY: bv32 := 0x04c11db7

  /** A 1024-entry table, from its first slice: each slice turns the entries of the one before. */
  function Filled(first: bv32 -> bv32): Table {
    (i: bv32) => Turned(first, first(Low(i)), High(i))
  }

  function Turned(first: bv32 -> bv32, s: bv32, slice: bv32): bv32 {
    if slice == 0 then s
    else if slice == 1 then TurnOf(first, s)
    else if slice == 2 then TurnOf(first, TurnOf(first, s))
    else TurnOf(first, TurnOf(first, TurnOf(first, s)))
  }

  function TurnOf(first: bv32 -> bv32, s: bv32): bv32 {
    Xor(High(s), first(Low(s)))
  }

  lemma SliceIndex(b: bv32)
    requires IsByte(b)
    ensures Low(b + 0) == b && Low(b + 0x100) == b && Low(b + 0x200) == b && Low(b + 0x300) == b
    ensures High(b + 0) == 0 && High(b + 0x100) == 1 && High(b + 0x200) == 2 && High(b + 0x300) == 3
  {
  }

  lemma FilledEntries(first: bv32 -> bv32, b: bv32)
    requires IsByte(b)
    ensures Entry(Filled(first), 0, b) == first(b)
    ensures Entry(Filled(first), 0x100, b) == TurnOf(first, first(b))
    ensures Entry(Filled(first), 0x200, b) == TurnOf(first, TurnOf(first, first(b)))
    ensures Entry(Filled(first), 0x300, b) == TurnOf(first, TurnOf(first, TurnOf(first, first(b))))
  {
    SliceIndex(b);
  }

  lemma FilledTurn(first: bv32 -> bv32, s: bv32)
    ensures Turn(Filled(first), s) == TurnOf(first, s)
  {
    assert IsByte(Low(s));
    FilledEntries(first, Low(s));
  }

  lemma FilledIsSliced(first: bv32 -> bv32)
    ensures Sliced(Filled(first))
  {
    forall b | IsByte(b)
      ensures SlicedAt(Filled(first), b)
    {
      FilledEntries(first, b);
      FilledTurn(first, first(b));
      FilledTurn(first, TurnOf(first, first(b)));
      FilledTurn(first, TurnOf(first, TurnOf(first, first(b))));
    }
  }

  /** crc_table_crc32_big. */
  function Crc32Table(): Table {
    Filled(b => Steps(CRC32_POLY, b, 8))
  }

  /** crc_table_cksum_big. */
  function CksumTable(): Table {
    Filled(b => Rev32(HighSteps(CKSUM_POLY, Top(b), 8)))
  }

  lemma Crc32TableIsReflected()
    ensures Reflected(CRC32_POLY, Crc32Table())
  {
    var first := b => Steps(CRC32_POLY, b, 8);
    FilledIsSliced(first);
    forall b | IsByte(b)
      ensures Entry(Crc32Table(), 0, b) == Steps(CRC32_POLY, b, 8)
    {
      FilledEntries(first, b);
    }
  }

  lemma CksumTableIsSwapped()
    ensures Swapped(CKSUM_POLY, CksumTable())
  {
    var first := b => Rev32(HighSteps(CKSUM_POLY, Top(b), 8));
    FilledIsSliced(first);
    forall b | IsByte(b)
      ensures Entry(CksumTable(), 0, b) == Rev32(HighSteps(CKSUM_POLY, Top(b), 8))
    {
      FilledEntries(first, b);
    }
  }

  class FastCRC32 {
    var seed: bv32

    constructor () {}

    /** crc32_upd. */
    method Crc32Upd(addr: nat, data: seq<bv8>) returns (crc: bv32)
      modifies this
      ensures seed == BitCrc(CRC32_POLY, old(seed), data) && crc == !seed
    {
      Crc32TableIsReflected();
      ReflectedIsLinear(CRC32_POLY, Crc32Table());
      crc := Update(Crc32Table(), seed, addr, data);
      BytesAreReflectedCrc(CRC32_POLY, Crc32Table(), seed, data);
      seed := crc;
      crc := !crc;
    }

    /** crc32. */
    method Crc32(addr: nat, data: seq<bv8>) returns (crc: bv32)
      modifies this
      ensures seed == BitCrc(CRC32_POLY, 0xffff_ffff, data) && crc == !seed
    {
      seed := 0xffff_ffff;
      crc := Crc32Upd(addr, data);
    }

    /** cksum_upd: the seed is REV32 of the register of the unreflected CRC. */
    method CksumUpd(addr: nat, data: seq<bv8>) returns (crc: bv32)
      modifies this
      ensures Rev32(seed) == HighBitCrc(CKSUM_POLY, Rev32(old(seed)), data) && crc == !Rev32(seed)
    {
      CksumTableIsSwapped();
      SwappedIsLinear(CKSUM_POLY, CksumTable());
      Rev32Twice(seed);
      crc := Update(CksumTable(), seed, addr, data);
      BytesAreSwappedCrc(CKSUM_POLY, CksumTable(), Rev32(seed), data);
      Rev32Twice(HighBitCrc(CKSUM_POLY, Rev32(seed), data));
      seed := crc;
      crc := !Rev32(crc);
    }

    /** cksum. */
    method Cksum(addr: nat, data: seq<bv8>) returns (crc: bv32)
      modifies this
      ensures Rev32(seed) == HighBitCrc(CKSUM_POLY, 0, data) && crc == !Rev32(seed)
    {
      seed := 0;
      assert Rev32(0) == 0;
      crc := CksumUpd(addr, data);
    }
  }

  // ---------- Splitting into calls ----------

  /** One call: where the data lies and what it is. */
  datatype Chunk = Chunk(addr: nat, data: seq<bv8>)

  function Joined(chunks: seq<Chunk>): seq<bv8> {
    if chunks == [] then [] else Joined(chunks[..|chunks| - 1]) + chunks[|chunks| - 1].data
  }

  lemma {:induction false} BitCrcAppend(poly: bv32, c: bv32, a: seq<bv8>, b: seq<bv8>)
    ensures BitCrc(poly, c, a + b) == BitCrc(poly, BitCrc(poly, c, a), b)
  {
    if b == [] {
      assert a + b == a;
    } else {
      var n := |b| - 1;
      assert (a + b)[..|a + b| - 1] == a + b[..n];
      BitCrcAppend(poly, c, a, b[..n]);
    }
  }

  lemma {:induction false} HighBitCrcAppend(poly: bv32, c: bv32, a: seq<bv8>, b: seq<bv8>)
    ensures HighBitCrc(poly, c, a + b) == HighBitCrc(poly, HighBitCrc(poly, c, a), b)
  {
    if b == [] {
      assert a + b == a;
    } else {
      var n := |b| - 1;
      assert (a + b)[..|a + b| - 1] == a + b[..n];
      HighBitCrcAppend(poly, c, a, b[..n]);
    }
  }

  /** The data of the first call and of the next `i`. */
  function Sent(first: Chunk, rest: seq<Chunk>, i: nat): seq<bv8>
    requires i <= |rest|
  {
    first.data + Joined(rest[..i])
  }

  lemma SentNext(first: Chunk, rest: seq<Chunk>, i: nat)
    requires i < |rest|
    ensures Sent(first, rest, i + 1) == Sent(first, rest, i) + rest[i].data
  {
    assert rest[..i + 1][..i] == rest[..i];
    assert first.data + (Joined(rest[..i]) + rest[i].data) == first.data + Joined(rest[..i]) + rest[i].data;
  }

  lemma SentEnds(first: Chunk, rest: seq<Chunk>)
    ensures Sent(first, rest, 0) == first.data && Sent(first, rest, |rest|) == first.data + Joined(rest)
  {
    assert rest[..0] == [] && rest[..|rest|] == rest;
    assert first.data + [] == first.data;
  }

  lemma Crc32Next(first: Chunk, rest: seq<Chunk>, i: nat)
    requires i < |rest|
    ensures BitCrc(CRC32_POLY, 0xffff_ffff, Sent(first, rest, i + 1))
         == BitCrc(CRC32_POLY, BitCrc(CRC32_POLY, 0xffff_ffff, Sent(first, rest, i)), rest[i].data)
  {
    SentNext(first, rest, i);
    BitCrcAppend(CRC32_POLY, 0xffff_ffff, Sent(first, rest, i), rest[i].data);
  }

  lemma CksumNext(first: Chunk, rest: seq<Chunk>, i: nat)
    requires i < |rest|
    ensures HighBitCrc(CKSUM_POLY, 0, Sent(first, rest, i + 1))
         == HighBitCrc(CKSUM_POLY, HighBitCrc(CKSUM_POLY, 0, Sent(first, rest, i)), rest[i].data)
  {
    SentNext(first, rest, i);
    HighBitCrcAppend(CKSUM_POLY, 0, Sent(first, rest, i), rest[i].data);
  }

  /** crc32 and then any number of crc32_upd: the CRC-32 of all the data, at any alignment and split. */
  method Crc32Stream(first: Chunk, rest: seq<Chunk>) returns (crc: bv32)
    ensures crc == !BitCrc(CRC32_POLY, 0xffff_ffff, first.data + Joined(rest))
  {
    var engine := new FastCRC32();
    crc := engine.Crc32(first.addr, first.data);
    SentEnds(first, rest);
    for i := 0 to |rest|
      invariant engine.seed == BitCrc(CRC32_POLY, 0xffff_ffff, Sent(first, rest, i)) && crc == !engine.seed
    {
      Crc32Next(first, rest, i);
      crc := engine.Crc32Upd(rest[i].addr, rest[i].data);
    }
  }

  /** cksum and then any number of cksum_upd. */
  method CksumStream(first: Chunk, rest: seq<Chunk>) returns (crc: bv32)
    ensures crc == !HighBitCrc(CKSUM_POLY, 0, first.data + Joined(rest))
  {
    var engine := new FastCRC32();
    crc := engine.Cksum(first.addr, first.data);
    SentEnds(first, rest);
    for i := 0 to |rest|
      invariant Rev32(engine.seed) == HighBitCrc(CKSUM_POLY, 0, Sent(first, rest, i)) && crc == !Rev32(engine.seed)
    {
      CksumNext(first, rest, i);
      crc := engine.CksumUpd(rest[i].addr, rest[i].data);
    }
  }
}
