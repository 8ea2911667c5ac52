/**
 Table-driven CRC steps on a 32-bit register, one byte or one little-endian word at a time.

 A table has four slices of 256 entries; slice i starts at index 0x100 * i. Nothing here depends on
 the polynomial: slicing is correct for every table whose first slice is linear and whose later
 slices are what one more byte step makes of the slice before.
 */
module CrcSlices {
  import opened Verdicts

  type Table = bv32 -> bv32

  // The bit operations have names so that the proofs below can treat them as symbols.

  function Xor(a: bv32, b: bv32): bv32 { a ^ b }

  function Low(s: bv32): bv32 { s & 0xff }

  function High(s: bv32): bv32 { s >> 8 }

  function Up(s: bv32): bv32 { s << 8 }

  predicate IsByte(b: bv32) { b <= 0xff }

  /** Entry `b` of the slice that starts at `start`. */
  function Entry(t: Table, start: bv32, b: bv32): bv32 { t(b + start) }

  /** The byte step on a register that already holds the data byte. */
  function Turn(t: Table, s: bv32): bv32 {
    Xor(High(s), Entry(t, 0, Low(s)))
  }

  function ByteStep(t: Table, s: bv32, b: bv8): bv32 {
    Turn(t, Xor(s, b as bv32))
  }

  /** A whole byte string, one byte at a time. */
  function Bytes(t: Table, s: bv32, data: seq<bv8>): bv32 {
    if data == [] then s else ByteStep(t, Bytes(t, s, data[..|data| - 1]), data[|data| - 1])
  }

  ghost predicate LinearAt(t: Table, a: bv32, b: bv32) {
    Entry(t, 0, Xor(a, b)) == Xor(Entry(t, 0, a), Entry(t, 0, b))
  }

  ghost predicate Linear(t: Table) {
    forall a, b {:trigger LinearAt(t, a, b)} :: IsByte(a) && IsByte(b) ==> LinearAt(t, a, b)
  }

  /** The only relation between the slices: T(i+1)[b] = (T(i)[b] >> 8) ^ T0[T(i)[b] & 0xff]. */
  ghost predicate SlicedAt(t: Table, b: bv32) {
    && Entry(t, 0x100, b) == Turn(t, Entry(t, 0, b))
    && Entry(t, 0x200, b) == Turn(t, Entry(t, 0x100, b))
    && Entry(t, 0x300, b) == Turn(t, Entry(t, 0x200, b))
  }

  ghost predicate Sliced(t: Table) {
    forall b {:trigger SlicedAt(t, b)} :: IsByte(b) ==> SlicedAt(t, b)
  }

  /** crc_n4d on a register that already holds the data word. */
  function SliceStep(t: Table, s: bv32): bv32 {
    Xor(Xor(Xor(Entry(t, 0x300, Low(s)), Entry(t, 0x200, Low(High(s)))), Entry(t, 0x100, Low(High(High(s))))),
        Entry(t, 0, Low(High(High(High(s))))))
  }

  /** A little-endian 32-bit load. */
  function Word(b0: bv8, b1: bv8, b2: bv8, b3: bv8): bv32 {
    (b0 as bv32) | ((b1 as bv32) << 8) | ((b2 as bv32) << 16) | ((b3 as bv32) << 24)
  }

  // ---------- Turn is linear, and a plain shift on registers with an empty low byte ----------

  lemma XorParts(a: bv32, b: bv32)
    ensures High(Xor(a, b)) == Xor(High(a), High(b)) && Low(Xor(a, b)) == Xor(Low(a), Low(b))
    ensures IsByte(Low(a))
  {
  }

  lemma XorAssoc(a: bv32, b: bv32, c: bv32)
    ensures Xor(a, Xor(b, c)) == Xor(Xor(a, b), c)
  {
  }

  lemma XorComm(a: bv32, b: bv32)
    ensures Xor(a, b) == Xor(b, a)
  {
  }

  lemma XorZero(a: bv32)
    ensures Xor(a, 0) == a && Xor(a, a) == 0 && Xor(0, a) == a
  {
  }

  lemma XorSwap(a: bv32, b: bv32, c: bv32, d: bv32)
    ensures Xor(Xor(a, b), Xor(c, d)) == Xor(Xor(a, c), Xor(b, d))
  {
    XorAssoc(a, b, Xor(c, d));
    XorAssoc(b, c, d);
    XorComm(b, c);
    XorAssoc(c, b, d);
    XorAssoc(a, c, Xor(b, d));
  }

  lemma TurnIsLinear(t: Table, a: bv32, b: bv32)
    requires Linear(t)
    ensures Turn(t, Xor(a, b)) == Xor(Turn(t, a), Turn(t, b))
  {
    XorParts(a, b);
    XorParts(b, a);
    assert LinearAt(t, Low(a), Low(b));
    XorSwap(High(a), High(b), Entry(t, 0, Low(a)), Entry(t, 0, Low(b)));
  }

  lemma ZeroEntry(t: Table)
    requires Linear(t)
    ensures Entry(t, 0, 0) == 0
  {
    assert IsByte(0) && LinearAt(t, 0, 0);
    XorZero(0);
    XorZero(Entry(t, 0, 0));
  }

  lemma TurnShifts(t: Table, s: bv32)
    requires Linear(t) && Low(s) == 0
    ensures Turn(t, s) == High(s)
  {
    ZeroEntry(t);
    XorZero(High(s));
  }

  lemma ByteParts(b: bv32)
    requires IsByte(b)
    ensures High(b) == 0 && Low(b) == b
    ensures Low(Up(b)) == 0 && Low(Up(Up(b))) == 0 && Low(Up(Up(Up(b)))) == 0
    ensures High(Up(b)) == b && High(Up(Up(b))) == Up(b) && High(Up(Up(Up(b)))) == Up(Up(b))
  {
  }

  lemma TurnOfByte(t: Table, b: bv32)
    requires IsByte(b)
    ensures Turn(t, b) == Entry(t, 0, b)
  {
    ByteParts(b);
    XorZero(Entry(t, 0, b));
  }

  // ---------- Four bytes at once ----------

  function Turn4(t: Table, s: bv32): bv32 {
    Turn(t, Turn(t, Turn(t, Turn(t, s))))
  }

  lemma Turn4IsLinear(t: Table, a: bv32, b: bv32)
    requires Linear(t)
    ensures Turn4(t, Xor(a, b)) == Xor(Turn4(t, a), Turn4(t, b))
  {
    TurnIsLinear(t, a, b);
    TurnIsLinear(t, Turn(t, a), Turn(t, b));
    TurnIsLinear(t, Turn(t, Turn(t, a)), Turn(t, Turn(t, b)));
    TurnIsLinear(t, Turn(t, Turn(t, Turn(t, a))), Turn(t, Turn(t, Turn(t, b))));
  }

  /** A byte turned four times is its entry in slice 3; higher bytes need fewer turns. */
  lemma TurnsAreSlices(t: Table, b: bv32)
    requires IsByte(b) && Linear(t) && Sliced(t)
    ensures Turn4(t, b) == Entry(t, 0x300, b)
    ensures Turn4(t, Up(b)) == Entry(t, 0x200, b)
    ensures Turn4(t, Up(Up(b))) == Entry(t, 0x100, b)
    ensures Turn4(t, Up(Up(Up(b)))) == Entry(t, 0, b)
  {
    SliceChain(t, b);
    TurnUp(t, b);
  }

  lemma SliceChain(t: Table, b: bv32)
    requires IsByte(b) && Linear(t) && Sliced(t)
    ensures Turn(t, b) == Entry(t, 0, b) && Turn(t, Entry(t, 0, b)) == Entry(t, 0x100, b)
    ensures Turn(t, Entry(t, 0x100, b)) == Entry(t, 0x200, b) && Turn(t, Entry(t, 0x200, b)) == Entry(t, 0x300, b)
  {
    TurnOfByte(t, b);
    assert SlicedAt(t, b);
  }

  lemma TurnUp(t: Table, b: bv32)
    requires IsByte(b) && Linear(t)
    ensures Turn(t, Up(b)) == b && Turn(t, Up(Up(b))) == Up(b) && Turn(t, Up(Up(Up(b)))) == Up(Up(b))
  {
    ByteParts(b);
    TurnShifts(t, Up(b));
    TurnShifts(t, Up(Up(b)));
    TurnShifts(t, Up(Up(Up(b))));
  }

  lemma BytesOf(s: bv32) returns (b0: bv32, b1: bv32, b2: bv32, b3: bv32)
    ensures b0 == Low(s) && b1 == Low(High(s)) && b2 == Low(High(High(s))) && b3 == Low(High(High(High(s))))
    ensures IsByte(b0) && IsByte(b1) && IsByte(b2) && IsByte(b3)
    ensures s == Xor(Xor(Xor(b0, Up(b1)), Up(Up(b2))), Up(Up(Up(b3))))
  {
    b0, b1, b2, b3 := Low(s), Low(High(s)), Low(High(High(s))), Low(High(High(High(s))));
  }

  /** The slice step is four turns: the two forms of the word step (CRC_BIGTABLES or not) agree. */
  lemma SliceIsFourTurns(t: Table, s: bv32)
    requires Linear(t) && Sliced(t)
    ensures SliceStep(t, s) == Turn4(t, s)
  {
    var b0, b1, b2, b3 := BytesOf(s);
    Turn4IsLinear(t, Xor(Xor(b0, Up(b1)), Up(Up(b2))), Up(Up(Up(b3))));
    Turn4IsLinear(t, Xor(b0, Up(b1)), Up(Up(b2)));
    Turn4IsLinear(t, b0, Up(b1));
    TurnsAreSlices(t, b0);
    TurnsAreSlices(t, b1);
    TurnsAreSlices(t, b2);
    TurnsAreSlices(t, b3);
  }

  // ---------- A word is its four bytes ----------

  /** Data above the low byte passes through a turn. */
  lemma TurnDefers(t: Table, s: bv32, v: bv32)
    requires Linear(t) && v <= 0xffffff
    ensures Turn(t, Xor(s, Up(v))) == Xor(Turn(t, s), v)
  {
    assert Low(Up(v)) == 0 && High(Up(v)) == v;
    TurnIsLinear(t, s, Up(v));
    TurnShifts(t, Up(v));
  }

  lemma WordParts(b0: bv8, b1: bv8, b2: bv8, b3: bv8) returns (r1: bv32, r2: bv32)
    ensures Word(b0, b1, b2, b3) == Xor(b0 as bv32, Up(r1)) && r1 <= 0xffffff
    ensures r1 == Xor(b1 as bv32, Up(r2)) && r2 <= 0xffffff
    ensures r2 == Xor(b2 as bv32, Up(b3 as bv32)) && b3 as bv32 <= 0xffffff
  {
    r2 := Xor(b2 as bv32, Up(b3 as bv32));
    r1 := Xor(b1 as bv32, Up(r2));
  }

  /** One deferred byte comes due. */
  lemma NextByte(t: Table, s: bv32, b: bv8, v: bv32, r: bv32)
    requires Linear(t) && v <= 0xffffff && r == Xor(b as bv32, Up(v))
    ensures Turn(t, Xor(s, r)) == Xor(ByteStep(t, s, b), v)
  {
    XorAssoc(s, b as bv32, Up(v));
    TurnDefers(t, Xor(s, b as bv32), v);
  }

  lemma WordIsFourBytes(t: Table, s: bv32, b0: bv8, b1: bv8, b2: bv8, b3: bv8)
    requires Linear(t) && Sliced(t)
    ensures SliceStep(t, Xor(s, Word(b0, b1, b2, b3)))
         == ByteStep(t, ByteStep(t, ByteStep(t, ByteStep(t, s, b0), b1), b2), b3)
  {
    var r1, r2 := WordParts(b0, b1, b2, b3);
    SliceIsFourTurns(t, Xor(s, Word(b0, b1, b2, b3)));
    NextByte(t, s, b0, r1, Word(b0, b1, b2, b3));
    NextByte(t, ByteStep(t, s, b0), b1, r2, r1);
    NextByte(t, ByteStep(t, ByteStep(t, s, b0), b1), b2, b3 as bv32, r2);
  }

  // ---------- Byte strings ----------

  lemma {:induction false} BytesAppend(t: Table, s: bv32, a: seq<bv8>, b: seq<bv8>)
    ensures Bytes(t, s, a + b) == Bytes(t, Bytes(t, s, a), b)
  {
    if b == [] {
      assert a + b == a;
    } else {
      var n := |b| - 1;
      assert (a + b)[..|a + b| - 1] == a + b[..n];
      BytesAppend(t, s, a, b[..n]);
    }
  }

  lemma BytesNext(t: Table, s: bv32, data: seq<bv8>, i: nat)
    requires i < |data|
    ensures Bytes(t, s, data[..i + 1]) == ByteStep(t, Bytes(t, s, data[..i]), data[i])
  {
    assert data[..i + 1][..i] == data[..i];
  }

  lemma BytesNextWord(t: Table, s: bv32, data: seq<bv8>, i: nat)
    requires i + 4 <= |data| && Linear(t) && Sliced(t)
    ensures Bytes(t, s, data[..i + 4])
         == SliceStep(t, Xor(Bytes(t, s, data[..i]), Word(data[i], data[i + 1], data[i + 2], data[i + 3])))
  {
    BytesNext(t, s, data, i);
    BytesNext(t, s, data, i + 1);
    BytesNext(t, s, data, i + 2);
    BytesNext(t, s, data, i + 3);
    WordIsFourBytes(t, Bytes(t, s, data[..i]), data[i], data[i + 1], data[i + 2], data[i + 3]);
  }

  // ---------- The loops ----------

  /** (crc >> 8) ^ table[(crc & 0xff) ^ byte]. */
  method NextByteOf(t: Table, crc: bv32, b: bv8) returns (next: bv32)
    ensures next == ByteStep(t, crc, b)
  {
    DataInLowByte(crc, b);
    next := Xor(High(crc), Entry(t, 0, Xor(Low(crc), b as bv32)));
  }

  lemma DataInLowByte(s: bv32, b: bv8)
    ensures High(Xor(s, b as bv32)) == High(s) && Low(Xor(s, b as bv32)) == Xor(Low(s), b as bv32)
  {
  }

  /** `crc` is the register after the first `i` bytes. */
  ghost function Done(t: Table, seed: bv32, data: seq<bv8>, i: nat, crc: bv32): Verdict {
    if i <= |data| && crc == Bytes(t, seed, data[..i]) then Sound else Broken
  }

  lemma AllDone(t: Table, seed: bv32, data: seq<bv8>, crc: bv32)
    ensures Done(t, seed, data, 0, seed).Sound?
    ensures Done(t, seed, data, |data|, crc).Sound? ==> crc == Bytes(t, seed, data)
  {
    assert data[..|data|] == data;
  }

  method ByteAt(t: Table, crc: bv32, data: seq<bv8>, i: nat, ghost seed: bv32) returns (next: bv32)
    requires i < |data| && Done(t, seed, data, i, crc).Sound?
    ensures Done(t, seed, data, i + 1, next).Sound?
  {
    BytesNext(t, seed, data, i);
    next := NextByteOf(t, crc, data[i]);
  }

  /** One crc_n4d with the aligned word at `i`. */
  method WordAt(t: Table, crc: bv32, data: seq<bv8>, i: nat, ghost seed: bv32) returns (next: bv32)
    requires i + 4 <= |data| && Linear(t) && Sliced(t) && Done(t, seed, data, i, crc).Sound?
    ensures Done(t, seed, data, i + 4, next).Sound?
  {
    BytesNextWord(t, seed, data, i);
    next := SliceStep(t, Xor(crc, Word(data[i], data[i + 1], data[i + 2], data[i + 3])));
  }

  /**
   The loops that crc32_upd and cksum_upd share: bytes up to a 4-byte boundary, blocks of sixteen
   bytes, the rest. `addr` is the address of the first byte.
   */
  method Update(t: Table, seed: bv32, addr: nat, data: seq<bv8>) returns (crc: bv32)
    requires Linear(t) && Sliced(t)
    ensures crc == Bytes(t, seed, data)
  {
    crc := seed;
    AllDone(t, seed, data, crc);
    var i := 0;
    while (addr + i) % 4 != 0 && i < |data|
      invariant i <= |data| && Done(t, seed, data, i, crc).Sound?
      decreases |data| - i
    {
      crc := ByteAt(t, crc, data, i, seed);
      i := i + 1;
    }
    while |data| - i >= 16
      invariant i <= |data| && Done(t, seed, data, i, crc).Sound?
    {
      crc := WordAt(t, crc, data, i, seed);
      crc := WordAt(t, crc, data, i + 4, seed);
      crc := WordAt(t, crc, data, i + 8, seed);
      crc := WordAt(t, crc, data, i + 12, seed);
      i := i + 16;
    }
    while i < |data|
      invariant i <= |data| && Done(t, seed, data, i, crc).Sound?
    {
      crc := ByteAt(t, crc, data, i, seed);
      i := i + 1;
    }
    AllDone(t, seed, data, crc);
  }
}
