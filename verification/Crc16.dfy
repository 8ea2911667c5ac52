/**
 FastCRC16: the reflected CRCs (modbus, kermit, x25) and the byte-swapped ones (ccitt, xmodem).

 A 16-bit register is the low half of a 32-bit one, so the word steps of CrcSlices serve here too:
 xoring a data word into the register truncates, and the two upper data bytes are looked up directly.
 */
module Crc16 {
  import opened Verdicts
  import opened ByteOrder
  import opened CrcSlices
  import opened CrcBits
  import opened Crc32

  type Table16 = bv32 -> bv16

  function Widen(t: Table16): Table {
    (i: bv32) => Wide(t(i))
  }

  /** A table whose entries fit in 16 bits. */
  function Narrow(t: Table): Table16 {
    (i: bv32) => LowHalf(t(i))
  }

  // ---------- The reference on 16 bits ----------

  function Xor16(a: bv16, b: bv16): bv16 { a ^ b }

  function Half16(c: bv16): bv16 { c >> 1 }

  function Double16(c: bv16): bv16 { c << 1 }

  predicate Odd16(c: bv16) { c & 1 == 1 }

  predicate Negative16(c: bv16) { c >> 15 == 1 }

  function FeedBit16(poly: bv16, c: bv16, bit: bool): bv16 {
    if Odd16(c) != bit then Xor16(Half16(c), poly) else Half16(c)
  }

  function FeedBits16(poly: bv16, c: bv16, b: bv32, n: nat): bv16
    decreases n
  {
    if n == 0 then c else FeedBits16(poly, FeedBit16(poly, c, Odd(b)), Half(b), n - 1)
  }

  /** The reflected 16-bit CRC, one message bit at a time. */
  function BitCrc16(poly: bv16, c: bv16, data: seq<bv8>): bv16 {
    if data == [] then c
    else FeedBits16(poly, BitCrc16(poly, c, data[..|data| - 1]), data[|data| - 1] as bv32, 8)
  }

  function FeedHighBit16(poly: bv16, c: bv16, bit: bool): bv16 {
    if Negative16(c) != bit then Xor16(Double16(c), poly) else Double16(c)
  }

  function FeedHighBits16(poly: bv16, c: bv16, w: bv32, n: nat): bv16
    decreases n
  {
    if n == 0 then c else FeedHighBits16(poly, FeedHighBit16(poly, c, Negative(w)), Double(w), n - 1)
  }

  /** The 16-bit CRC that is not reflected. */
  function HighBitCrc16(poly: bv16, c: bv16, data: seq<bv8>): bv16 {
    if data == [] then c
    else FeedHighBits16(poly, HighBitCrc16(poly, c, data[..|data| - 1]), AtTop(data[|data| - 1]), 8)
  }

  // ---------- 16 bits inside 32 ----------

  lemma XorWide(a: bv16, b: bv16)
    ensures Wide(Xor16(a, b)) == Xor(Wide(a), Wide(b)) && AtHead(Xor16(a, b)) == Xor(AtHead(a), AtHead(b))
  {
  }

  lemma HalfWide(c: bv16)
    ensures Wide(Half16(c)) == Half(Wide(c)) && (Odd16(c) <==> Odd(Wide(c)))
  {
  }

  lemma DoubleAtHead(c: bv16)
    ensures AtHead(Double16(c)) == Double(AtHead(c)) && (Negative16(c) <==> Negative(AtHead(c)))
  {
  }

  lemma FeedBitWide(poly: bv16, c: bv16, bit: bool)
    ensures FeedBit(Wide(poly), Wide(c), bit) == Wide(FeedBit16(poly, c, bit))
  {
    HalfWide(c);
    XorWide(Half16(c), poly);
  }

  lemma FeedHighBitWide(poly: bv16, c: bv16, bit: bool)
    ensures FeedHighBit(AtHead(poly), AtHead(c), bit) == AtHead(FeedHighBit16(poly, c, bit))
  {
    DoubleAtHead(c);
    XorWide(Double16(c), poly);
  }

  lemma {:induction false} FeedBitsWide(poly: bv16, c: bv16, b: bv32, n: nat)
    ensures FeedBits(Wide(poly), Wide(c), b, n) == Wide(FeedBits16(poly, c, b, n))
    decreases n
  {
    if n > 0 {
      FeedBitWide(poly, c, Odd(b));
      FeedBitsWide(poly, FeedBit16(poly, c, Odd(b)), Half(b), n - 1);
    }
  }

  lemma {:induction false} FeedHighBitsWide(poly: bv16, c: bv16, w: bv32, n: nat)
    ensures FeedHighBits(AtHead(poly), AtHead(c), w, n) == AtHead(FeedHighBits16(poly, c, w, n))
    decreases n
  {
    if n > 0 {
      FeedHighBitWide(poly, c, Negative(w));
      FeedHighBitsWide(poly, FeedHighBit16(poly, c, Negative(w)), Double(w), n - 1);
    }
  }

  lemma {:induction false} BitCrcWide(poly: bv16, c: bv16, data: seq<bv8>)
    ensures BitCrc(Wide(poly), Wide(c), data) == Wide(BitCrc16(poly, c, data))
  {
    if data != [] {
      var front, b := data[..|data| - 1], data[|data| - 1];
      BitCrcWide(poly, c, front);
      FeedBitsWide(poly, BitCrc16(poly, c, front), b as bv32, 8);
    }
  }

  lemma {:induction false} HighBitCrcWide(poly: bv16, c: bv16, data: seq<bv8>)
    ensures HighBitCrc(AtHead(poly), AtHead(c), data) == AtHead(HighBitCrc16(poly, c, data))
  {
    if data != [] {
      var front, b := data[..|data| - 1], data[|data| - 1];
      HighBitCrcWide(poly, c, front);
      FeedHighBitsWide(poly, HighBitCrc16(poly, c, front), AtTop(b), 8);
    }
  }

  lemma WideInjective(a: bv16, b: bv16)
    requires Wide(a) == Wide(b)
    ensures a == b
  {
  }

  // ---------- Steps on 16 bits ----------

  lemma PartsWide(a: bv16)
    ensures Wide(a >> 8) == High(Wide(a)) && Wide(a & 0xff) == Low(Wide(a))
  {
  }

  lemma EntryWide(t: Table16, start: bv32, b: bv32)
    ensures Entry(Widen(t), start, b) == Wide(t(b + start))
  {
  }

  /** (crc >> 8) ^ table[(crc & 0xff) ^ byte]. */
  method NextByte16(t: Table16, crc: bv16, b: bv8) returns (next: bv16)
    ensures Wide(next) == ByteStep(Widen(t), Wide(crc), b)
  {
    var index := Xor(Wide(crc & 0xff), b as bv32);
    next := Xor16(crc >> 8, t(index + 0));
    PartsWide(crc);
    DataInLowByte(Wide(crc), b);
    EntryWide(t, 0, index);
    XorWide(crc >> 8, t(index + 0));
  }

  function LowHalf(w: bv32): bv16 { (w & 0xffff) as bv16 }

  /** The truncating xor of crc_n4 keeps the lower data half; the upper half is not in the register. */
  lemma HalvesOf(crc: bv16, w: bv32, x: bv16)
    requires x == Xor16(crc, LowHalf(w))
    ensures Low(Xor(Wide(crc), w)) == Wide(x & 0xff) && Low(High(Xor(Wide(crc), w))) == Wide((x >> 8) & 0xff)
    ensures Low(High(High(Xor(Wide(crc), w)))) == (w >> 16) & 0xff
      && Low(High(High(High(Xor(Wide(crc), w))))) == w >> 24
  {
  }

  /** crc_n4. */
  method NextWord16(t: Table16, crc: bv16, w: bv32) returns (next: bv16)
    ensures Wide(next) == SliceStep(Widen(t), Xor(Wide(crc), w))
  {
    var x := Xor16(crc, LowHalf(w));
    var e3 := t(Wide(x & 0xff) + 0x300);
    var e2 := t(Wide((x >> 8) & 0xff) + 0x200);
    var e1 := t(((w >> 16) & 0xff) + 0x100);
    var e0 := t((w >> 24) + 0);
    next := Xor16(Xor16(Xor16(e3, e2), e1), e0);
    HalvesOf(crc, w, x);
    EntryWide(t, 0x300, Wide(x & 0xff));
    EntryWide(t, 0x200, Wide((x >> 8) & 0xff));
    EntryWide(t, 0x100, (w >> 16) & 0xff);
    EntryWide(t, 0, w >> 24);
    XorWide(Xor16(Xor16(e3, e2), e1), e0);
    XorWide(Xor16(e3, e2), e1);
    XorWide(e3, e2);
  }

  /** `crc` is the register after the first `i` bytes. */
  ghost function Done(t: Table16, seed: bv16, data: seq<bv8>, i: nat, crc: bv16): Verdict {
    if i <= |data| && Wide(crc) == Bytes(Widen(t), Wide(seed), data[..i]) then Sound else Broken
  }

  lemma AllDone(t: Table16, seed: bv16, data: seq<bv8>, crc: bv16)
    ensures Done(t, seed, data, 0, seed).Sound?
    ensures Done(t, seed, data, |data|, crc).Sound? ==> Wide(crc) == Bytes(Widen(t), Wide(seed), data)
  {
    assert data[..|data|] == data;
  }

  method ByteAt(t: Table16, crc: bv16, data: seq<bv8>, i: nat, ghost seed: bv16) returns (next: bv16)
    requires i < |data| && Done(t, seed, data, i, crc).Sound?
    ensures Done(t, seed, data, i + 1, next).Sound?
  {
    BytesNext(Widen(t), Wide(seed), data, i);
    next := NextByte16(t, crc, data[i]);
  }

  /** One crc_n4 with the aligned word at `i`. */
  method WordAt(t: Table16, crc: bv16, data: seq<bv8>, i: nat, ghost seed: bv16) returns (next: bv16)
    requires i + 4 <= |data| && Linear(Widen(t)) && Sliced(Widen(t)) && Done(t, seed, data, i, crc).Sound?
    ensures Done(t, seed, data, i + 4, next).Sound?
  {
    BytesNextWord(Widen(t), Wide(seed), data, i);
    next := NextWord16(t, crc, Word(data[i], data[i + 1], data[i + 2], data[i + 3]));
  }

  /** The loops that the 16-bit CRCs share. */
  method Update16(t: Table16, seed: bv16, addr: nat, data: seq<bv8>) returns (crc: bv16)
    requires Linear(Widen(t)) && Sliced(Widen(t))
    ensures Wide(crc) == Bytes(Widen(t), Wide(seed), data)
  {
    crc := seed;
    AllDone(t, seed, data, crc);
    var i := 0;
    while (addr + i) % 4 != 0 && i < |data|
      invariant i <= |data| && Done(t, seed, data, i, crc).Sound?
      decreases |data| - i
    {
      crc := ByteAt(t, crc, data, i, seed);
      i := i + 1;
    }
    while |data| - i >= 16
      invariant i <= |data| && Done(t, seed, data, i, crc).Sound?
    {
      crc := WordAt(t, crc, data, i, seed);
      crc := WordAt(t, crc, data, i + 4, seed);
      crc := WordAt(t, crc, data, i + 8, seed);
      crc := WordAt(t, crc, data, i + 12, seed);
      i := i + 16;
    }
    while i < |data|
      invariant i <= |data| && Done(t, seed, data, i, crc).Sound?
    {
      crc := ByteAt(t, crc, data, i, seed);
      i := i + 1;
    }
    AllDone(t, seed, data, crc);
  }

  /** What a table must be for a reflected CRC with polynomial `poly`. */
  ghost predicate Reflected16(poly: bv16, t: Table16) {
    Reflected(Wide(poly), Widen(t))
  }

  /** What a table must be for an unreflected CRC with polynomial `poly`, kept byte-swapped. */
  ghost predicate Swapped16(poly: bv16, t: Table16) {
    Swapped(AtHead(poly), Widen(t))
  }

  lemma ReflectedMeans(poly: bv16, t: Table16, seed: bv16, data: seq<bv8>, crc: bv16)
    requires Reflected16(poly, t) && Wide(crc) == Bytes(Widen(t), Wide(seed), data)
    ensures crc == BitCrc16(poly, seed, data)
  {
    BytesAreReflectedCrc(Wide(poly), Widen(t), Wide(seed), data);
    BitCrcWide(poly, seed, data);
    WideInjective(crc, BitCrc16(poly, seed, data));
  }

  lemma SwappedMeans(poly: bv16, t: Table16, seed: bv16, data: seq<bv8>, crc: bv16)
    requires Swapped16(poly, t) && Wide(crc) == Bytes(Widen(t), Wide(seed), data)
    ensures Rev16(crc) == HighBitCrc16(poly, Rev16(seed), data)
  {
    var c := Rev16(seed);
    var end := HighBitCrc16(poly, c, data);
    Rev16Twice(seed);
    Rev32OfHead(c);
    BytesAreSwappedCrc(AtHead(poly), Widen(t), AtHead(c), data);
    HighBitCrcWide(poly, c, data);
    Rev32OfHead(end);
    WideInjective(crc, Rev16(end));
    Rev16Twice(end);
  }

  // ---------- The tables ----------

  const MODBUS_POLY: bv16 := 0xa001
  const KERMIT_POLY: bv16 := 0x8408
  const X25_POLY: bv16 := 0x8408
  const CCITT_POLY: bv16 := 0x1021
  const XMODEM_POLY: bv16 := 0x1021

  /** crc_table_modbus, crc_table_kermit and crc_table_x25, by polynomial. */
  function ReflectedTable(poly: bv16): Table16 {
    Narrow(Filled(b => Steps(Wide(poly), b, 8)))
  }

  /** crc_table_ccitt and crc_table_xmodem. */
  function SwappedTable(poly: bv16): Table16 {
    Narrow(Filled(b => Rev32(HighSteps(AtHead(poly), Top(b), 8))))
  }

  predicate Small(v: bv32) { v <= 0xffff }

  predicate LowEmpty(v: bv32) { v & 0xffff == 0 }

  lemma {:induction false} StepsStaySmall(poly: bv16, c: bv32, n: nat)
    requires Small(c)
    ensures Small(Steps(Wide(poly), c, n))
    decreases n
  {
    if n > 0 { StepsStaySmall(poly, Step(Wide(poly), c), n - 1); }
  }

  lemma {:induction false} HighStepsKeepLowEmpty(poly: bv16, c: bv32, n: nat)
    requires LowEmpty(c)
    ensures LowEmpty(HighSteps(AtHead(poly), c, n))
    decreases n
  {
    if n > 0 { HighStepsKeepLowEmpty(poly, HighStep(AtHead(poly), c), n - 1); }
  }

  lemma Rev32OfLowEmpty(c: bv32)
    requires LowEmpty(c)
    ensures Small(Rev32(c))
  {
  }

  lemma TopIsLowEmpty(b: bv32)
    ensures LowEmpty(Top(b))
  {
  }

  ghost predicate SmallEntries(first: bv32 -> bv32) {
    forall b {:trigger first(b)} :: IsByte(b) ==> Small(first(b))
  }

  lemma TurnOfSmall(first: bv32 -> bv32, s: bv32)
    requires SmallEntries(first) && Small(s)
    ensures Small(TurnOf(first, s))
  {
    assert IsByte(Low(s));
    XorSmall(High(s), first(Low(s)));
  }

  lemma XorSmall(a: bv32, b: bv32)
    requires Small(b) && a <= 0xffff
    ensures Small(Xor(a, b))
  {
  }

  lemma FilledIsSmall(first: bv32 -> bv32, i: bv32)
    requires SmallEntries(first)
    ensures Small(Filled(first)(i))
  {
    assert IsByte(Low(i));
    var s := first(Low(i));
    TurnOfSmall(first, s);
    TurnOfSmall(first, TurnOf(first, s));
    TurnOfSmall(first, TurnOf(first, TurnOf(first, s)));
  }

  lemma NarrowEntry(first: bv32 -> bv32, start: bv32, b: bv32)
    requires SmallEntries(first)
    ensures Entry(Widen(Narrow(Filled(first))), start, b) == Entry(Filled(first), start, b)
  {
    FilledIsSmall(first, b + start);
    WideLow(Filled(first)(b + start));
  }

  lemma WideLow(v: bv32)
    requires Small(v)
    ensures Wide(LowHalf(v)) == v
  {
  }

  lemma NarrowTurn(first: bv32 -> bv32, s: bv32)
    requires SmallEntries(first)
    ensures Turn(Widen(Narrow(Filled(first))), s) == Turn(Filled(first), s)
  {
    NarrowEntry(first, 0, Low(s));
  }

  lemma NarrowIsSliced(first: bv32 -> bv32)
    requires SmallEntries(first)
    ensures Sliced(Widen(Narrow(Filled(first))))
  {
    FilledIsSliced(first);
    var t, u := Filled(first), Widen(Narrow(Filled(first)));
    forall b | IsByte(b)
      ensures SlicedAt(u, b)
    {
      assert SlicedAt(t, b);
      NarrowEntry(first, 0, b);
      NarrowEntry(first, 0x100, b);
      NarrowEntry(first, 0x200, b);
      NarrowEntry(first, 0x300, b);
      NarrowTurn(first, Entry(t, 0, b));
      NarrowTurn(first, Entry(t, 0x100, b));
      NarrowTurn(first, Entry(t, 0x200, b));
    }
  }

  lemma ReflectedTableIs(poly: bv16)
    ensures Reflected16(poly, ReflectedTable(poly))
  {
    var first := b => Steps(Wide(poly), b, 8);
    forall b | IsByte(b)
      ensures Small(first(b))
    {
      StepsStaySmall(poly, b, 8);
    }
    NarrowIsSliced(first);
    forall b | IsByte(b)
      ensures Entry(Widen(ReflectedTable(poly)), 0, b) == Steps(Wide(poly), b, 8)
    {
      NarrowEntry(first, 0, b);
      FilledEntries(first, b);
    }
  }

  lemma SwappedTableIs(poly: bv16)
    ensures Swapped16(poly, SwappedTable(poly))
  {
    var first := b => Rev32(HighSteps(AtHead(poly), Top(b), 8));
    forall b | IsByte(b)
      ensures Small(first(b))
    {
      TopIsLowEmpty(b);
      HighStepsKeepLowEmpty(poly, Top(b), 8);
      Rev32OfLowEmpty(HighSteps(AtHead(poly), Top(b), 8));
    }
    NarrowIsSliced(first);
    forall b | IsByte(b)
      ensures Entry(Widen(SwappedTable(poly)), 0, b) == Rev32(HighSteps(AtHead(poly), Top(b), 8))
    {
      NarrowEntry(first, 0, b);
      FilledEntries(first, b);
    }
  }

  class FastCRC16 {
    var seed: bv16

    constructor () {}

    /** What modbus_upd, kermit_upd and x25_upd have in common. */
    method ReflectedUpd(poly: bv16, addr: nat, data: seq<bv8>)
      modifies this
      ensures seed == BitCrc16(poly, old(seed), data)
    {
      var t := ReflectedTable(poly);
      ReflectedTableIs(poly);
      ReflectedIsLinear(Wide(poly), Widen(t));
      var crc := Update16(t, seed, addr, data);
      ReflectedMeans(poly, t, seed, data, crc);
      seed := crc;
    }

    /** What ccitt_upd and xmodem_upd have in common: the seed is REV16 of the unreflected register. */
    method SwappedUpd(poly: bv16, addr: nat, data: seq<bv8>)
      modifies this
      ensures Rev16(seed) == HighBitCrc16(poly, Rev16(old(seed)), data)
    {
      var t := SwappedTable(poly);
      SwappedTableIs(poly);
      SwappedIsLinear(AtHead(poly), Widen(t));
      var crc := Update16(t, seed, addr, data);
      SwappedMeans(poly, t, seed, data, crc);
      seed := crc;
    }

    /** modbus_upd. */
    method ModbusUpd(addr: nat, data: seq<bv8>) returns (crc: bv16)
      modifies this
      ensures seed == BitCrc16(MODBUS_POLY, old(seed), data) && crc == seed
    {
      ReflectedUpd(MODBUS_POLY, addr, data);
      crc := seed;
    }

    /** kermit_upd. */
    method KermitUpd(addr: nat, data: seq<bv8>) returns (crc: bv16)
      modifies this
      ensures seed == BitCrc16(KERMIT_POLY, old(seed), data) && crc == seed
    {
      ReflectedUpd(KERMIT_POLY, addr, data);
      crc := seed;
    }

    /** x25_upd. */
    method X25Upd(addr: nat, data: seq<bv8>) returns (crc: bv16)
      modifies this
      ensures seed == BitCrc16(X25_POLY, old(seed), data) && crc == !seed
    {
      ReflectedUpd(X25_POLY, addr, data);
      crc := seed;
      crc := !crc;
    }

    /** ccitt_upd. */
    method CcittUpd(addr: nat, data: seq<bv8>) returns (crc: bv16)
      modifies this
      ensures Rev16(seed) == HighBitCrc16(CCITT_POLY, Rev16(old(seed)), data) && crc == Rev16(seed)
    {
      SwappedUpd(CCITT_POLY, addr, data);
      crc := Rev16(seed);
    }

    /** xmodem_upd. */
    method XmodemUpd(addr: nat, data: seq<bv8>) returns (crc: bv16)
      modifies this
      ensures Rev16(seed) == HighBitCrc16(XMODEM_POLY, Rev16(old(seed)), data) && crc == Rev16(seed)
    {
      SwappedUpd(XMODEM_POLY, addr, data);
      crc := Rev16(seed);
    }
  }

  // ---------- Splitting into calls ----------

  lemma {:induction false} BitCrc16Append(poly: bv16, c: bv16, a: seq<bv8>, b: seq<bv8>)
    ensures BitCrc16(poly, c, a + b) == BitCrc16(poly, BitCrc16(poly, c, a), b)
  {
    if b == [] {
      assert a + b == a;
    } else {
      var n := |b| - 1;
      assert (a + b)[..|a + b| - 1] == a + b[..n];
      BitCrc16Append(poly, c, a, b[..n]);
    }
  }

  lemma {:induction false} HighBitCrc16Append(poly: bv16, c: bv16, a: seq<bv8>, b: seq<bv8>)
    ensures HighBitCrc16(poly, c, a + b) == HighBitCrc16(poly, HighBitCrc16(poly, c, a), b)
  {
    if b == [] {
      assert a + b == a;
    } else {
      var n := |b| - 1;
      assert (a + b)[..|a + b| - 1] == a + b[..n];
      HighBitCrc16Append(poly, c, a, b[..n]);
    }
  }

  lemma X25Next(first: Chunk, rest: seq<Chunk>, i: nat)
    requires i < |rest|
    ensures BitCrc16(X25_POLY, 0xffff, Sent(first, rest, i + 1))
         == BitCrc16(X25_POLY, BitCrc16(X25_POLY, 0xffff, Sent(first, rest, i)), rest[i].data)
  {
    SentNext(first, rest, i);
    BitCrc16Append(X25_POLY, 0xffff, Sent(first, rest, i), rest[i].data);
  }

  lemma CcittNext(first: Chunk, rest: seq<Chunk>, i: nat)
    requires i < |rest|
    ensures HighBitCrc16(CCITT_POLY, 0xffff, Sent(first, rest, i + 1))
         == HighBitCrc16(CCITT_POLY, HighBitCrc16(CCITT_POLY, 0xffff, Sent(first, rest, i)), rest[i].data)
  {
    SentNext(first, rest, i);
    HighBitCrc16Append(CCITT_POLY, 0xffff, Sent(first, rest, i), rest[i].data);
  }

  /** x25 and then any number of x25_upd. */
  method X25Stream(first: Chunk, rest: seq<Chunk>) returns (crc: bv16)
    ensures crc == !BitCrc16(X25_POLY, 0xffff, first.data + Joined(rest))
  {
    var engine := new FastCRC16();
    engine.seed := 0xffff;
    crc := engine.X25Upd(first.addr, first.data);
    SentEnds(first, rest);
    for i := 0 to |rest|
      invariant engine.seed == BitCrc16(X25_POLY, 0xffff, Sent(first, rest, i)) && crc == !engine.seed
    {
      X25Next(first, rest, i);
      crc := engine.X25Upd(rest[i].addr, rest[i].data);
    }
  }

  /** ccitt and then any number of ccitt_upd. */
  method CcittStream(first: Chunk, rest: seq<Chunk>) returns (crc: bv16)
    ensures crc == HighBitCrc16(CCITT_POLY, 0xffff, first.data + Joined(rest))
  {
    var engine := new FastCRC16();
    engine.seed := 0xffff;
    assert Rev16(0xffff) == 0xffff;
    crc := engine.CcittUpd(first.addr, first.data);
    SentEnds(first, rest);
    for i := 0 to |rest|
      invariant Rev16(engine.seed) == HighBitCrc16(CCITT_POLY, 0xffff, Sent(first, rest, i))
        && crc == Rev16(engine.seed)
    {
      CcittNext(first, rest, i);
      crc := engine.CcittUpd(rest[i].addr, rest[i].data);
    }
  }
}
