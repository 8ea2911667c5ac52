/** REV16 and REV32, and 16-bit values in the low and in the high half of a 32-bit register. */
module ByteOrder {

  function Wide(c: bv16): bv32 { c as bv32 }

  function AtHead(c: bv16): bv32 { (c as bv32) << 16 }

  function SwapHalves(v: bv32): bv32 {
    (v >> 16) | ((v & 0xffff) << 16)
  }

  function SwapPairs(v: bv32): bv32 {
    ((v >> 8) & 0xff00ff) | ((v & 0xff00ff) << 8)
  }

  /** REV32. */
  function Rev32(v: bv32): bv32 {
    SwapPairs(SwapHalves(v))
  }

  /** The four bytes in the opposite order. */
  lemma Rev32Form(v: bv32)
    ensures Rev32(v) == (v >> 24) | ((v >> 8) & 0xff00) | ((v << 8) & 0xff0000) | (v << 24)
  {
  }

  lemma Rev32Twice(a: bv32)
    ensures Rev32(Rev32(a)) == a
  {
  }

  /** REV16. */
  function Rev16(v: bv16): bv16 {
    (v >> 8) | ((v & 0xff) << 8)
  }

  lemma Rev16Twice(v: bv16)
    ensures Rev16(Rev16(v)) == v
  {
  }

  lemma HalvesOfHead(c: bv16)
    ensures SwapHalves(AtHead(c)) == Wide(c)
  {
  }

  function SwapLow(v: bv32): bv32 {
    (v >> 8) | ((v & 0xff) << 8)
  }

  lemma PairsOfSmall(v: bv32)
    requires v <= 0xffff
    ensures SwapPairs(v) == SwapLow(v)
  {
  }

  lemma Rev16Wide(c: bv16, d: bv16, v: bv32)
    requires d == Rev16(c) && v == Wide(c)
    ensures Wide(d) == SwapLow(v) && v <= 0xffff
  {
  }

  /** Swapping all four bytes of a register in the upper half swaps its two bytes into the lower. */
  lemma Rev32OfHead(c: bv16)
    ensures Rev32(AtHead(c)) == Wide(Rev16(c))
  {
    HalvesOfHead(c);
    Rev16Wide(c, Rev16(c), Wide(c));
    PairsOfSmall(Wide(c));
  }
}
