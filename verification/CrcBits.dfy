/**
 Bit-at-a-time CRCs on a 32-bit register, least and most significant bit first, and why a table of
 256 entries does eight of their steps at once. The most significant bit first register is kept
 byte-swapped by the table form.
 */
module CrcBits {
  import opened ByteOrder
  import opened CrcSlices

  function Half(s: bv32): bv32 { s >> 1 }

  function Double(s: bv32): bv32 { s << 1 }

  predicate Odd(s: bv32) { s & 1 == 1 }

  predicate Negative(s: bv32) { s >> 31 == 1 }

  // ---------- The reference: one message bit at a time ----------

  /** Shift right; the bit shifted out, plus the message bit, decides about the polynomial. */
  function FeedBit(poly: bv32, c: bv32, bit: bool): bv32 {
    if Odd(c) != bit then Xor(Half(c), poly) else Half(c)
  }

  /** The `n` low bits of `b`, lowest first. */
  function FeedBits(poly: bv32, c: bv32, b: bv32, n: nat): bv32
    decreases n
  {
    if n == 0 then c else FeedBits(poly, FeedBit(poly, c, Odd(b)), Half(b), n - 1)
  }

  /** The reflected CRC of a byte string. */
  function BitCrc(poly: bv32, c: bv32, data: seq<bv8>): bv32 {
    if data == [] then c
    else FeedBits(poly, BitCrc(poly, c, data[..|data| - 1]), data[|data| - 1] as bv32, 8)
  }

  /** Shift left; the bit shifted out, plus the message bit, decides about the polynomial. */
  function FeedHighBit(poly: bv32, c: bv32, bit: bool): bv32 {
    if Negative(c) != bit then Xor(Double(c), poly) else Double(c)
  }

  /** The `n` high bits of `w`, highest first. */
  function FeedHighBits(poly: bv32, c: bv32, w: bv32, n: nat): bv32
    decreases n
  {
    if n == 0 then c else FeedHighBits(poly, FeedHighBit(poly, c, Negative(w)), Double(w), n - 1)
  }

  function AtTop(b: bv8): bv32 { (b as bv32) << 24 }

  /** The CRC of a byte string, not reflected. */
  function HighBitCrc(poly: bv32, c: bv32, data: seq<bv8>): bv32 {
    if data == [] then c
    else FeedHighBits(poly, HighBitCrc(poly, c, data[..|data| - 1]), AtTop(data[|data| - 1]), 8)
  }

  // ---------- Steps without a message bit ----------

  function Step(poly: bv32, c: bv32): bv32 {
    FeedBit(poly, c, false)
  }

  function Steps(poly: bv32, c: bv32, n: nat): bv32
    decreases n
  {
    if n == 0 then c else Steps(poly, Step(poly, c), n - 1)
  }

  function HighStep(poly: bv32, c: bv32): bv32 {
    FeedHighBit(poly, c, false)
  }

  function HighSteps(poly: bv32, c: bv32, n: nat): bv32
    decreases n
  {
    if n == 0 then c else HighSteps(poly, HighStep(poly, c), n - 1)
  }

  lemma HalfParts(a: bv32, b: bv32)
    ensures Half(Xor(a, b)) == Xor(Half(a), Half(b)) && (Odd(Xor(a, b)) <==> Odd(a) != Odd(b))
  {
  }

  lemma DoubleParts(a: bv32, b: bv32)
    ensures Double(Xor(a, b)) == Xor(Double(a), Double(b)) && (Negative(Xor(a, b)) <==> Negative(a) != Negative(b))
  {
  }

  lemma XorRight(x: bv32, y: bv32, p: bv32)
    ensures Xor(Xor(x, y), p) == Xor(Xor(x, p), y)
  {
    XorAssoc(x, y, p);
    XorComm(y, p);
    XorAssoc(x, p, y);
  }

  lemma XorBoth(x: bv32, y: bv32, p: bv32)
    ensures Xor(Xor(x, p), Xor(y, p)) == Xor(x, y)
  {
    XorAssoc(Xor(x, p), y, p);
    XorRight(x, p, y);
    XorAssoc(Xor(x, y), p, p);
    XorZero(p);
    XorZero(Xor(x, y));
  }

  lemma StepIsLinear(poly: bv32, a: bv32, b: bv32)
    ensures Step(poly, Xor(a, b)) == Xor(Step(poly, a), Step(poly, b))
  {
    HalfParts(a, b);
    if Odd(a) && Odd(b) {
      XorBoth(Half(a), Half(b), poly);
    } else if Odd(a) {
      XorRight(Half(a), Half(b), poly);
    } else if Odd(b) {
      XorAssoc(Half(a), Half(b), poly);
    }
  }

  lemma HighStepIsLinear(poly: bv32, a: bv32, b: bv32)
    ensures HighStep(poly, Xor(a, b)) == Xor(HighStep(poly, a), HighStep(poly, b))
  {
    DoubleParts(a, b);
    if Negative(a) && Negative(b) {
      XorBoth(Double(a), Double(b), poly);
    } else if Negative(a) {
      XorRight(Double(a), Double(b), poly);
    } else if Negative(b) {
      XorAssoc(Double(a), Double(b), poly);
    }
  }

  lemma {:induction false} StepsAreLinear(poly: bv32, a: bv32, b: bv32, n: nat)
    ensures Steps(poly, Xor(a, b), n) == Xor(Steps(poly, a, n), Steps(poly, b, n))
    decreases n
  {
    if n > 0 {
      StepIsLinear(poly, a, b);
      StepsAreLinear(poly, Step(poly, a), Step(poly, b), n - 1);
    }
  }

  lemma {:induction false} HighStepsAreLinear(poly: bv32, a: bv32, b: bv32, n: nat)
    ensures HighSteps(poly, Xor(a, b), n) == Xor(HighSteps(poly, a, n), HighSteps(poly, b, n))
    decreases n
  {
    if n > 0 {
      HighStepIsLinear(poly, a, b);
      HighStepsAreLinear(poly, HighStep(poly, a), HighStep(poly, b), n - 1);
    }
  }

  // ---------- The message can be xored in ahead of the steps ----------

  function HalfTimes(b: bv32, n: nat): bv32
    decreases n
  {
    if n == 0 then b else HalfTimes(Half(b), n - 1)
  }

  function DoubleTimes(b: bv32, n: nat): bv32
    decreases n
  {
    if n == 0 then b else DoubleTimes(Double(b), n - 1)
  }

  lemma StepWithBit(poly: bv32, c: bv32, b: bv32)
    ensures Step(poly, Xor(c, b)) == Xor(FeedBit(poly, c, Odd(b)), Half(b))
  {
    HalfParts(c, b);
    XorRight(Half(c), Half(b), poly);
  }

  lemma HighStepWithBit(poly: bv32, c: bv32, w: bv32)
    ensures HighStep(poly, Xor(c, w)) == Xor(FeedHighBit(poly, c, Negative(w)), Double(w))
  {
    DoubleParts(c, w);
    if Negative(c) && !Negative(w) {
      XorRight(Double(c), Double(w), poly);
    } else if !Negative(c) && Negative(w) {
      XorRight(Double(c), Double(w), poly);
    }
  }

  lemma {:induction false} StepsWithBits(poly: bv32, c: bv32, b: bv32, n: nat)
    ensures Steps(poly, Xor(c, b), n) == Xor(FeedBits(poly, c, b, n), HalfTimes(b, n))
    decreases n
  {
    if n > 0 {
      StepWithBit(poly, c, b);
      StepsWithBits(poly, FeedBit(poly, c, Odd(b)), Half(b), n - 1);
    }
  }

  lemma {:induction false} HighStepsWithBits(poly: bv32, c: bv32, w: bv32, n: nat)
    ensures HighSteps(poly, Xor(c, w), n) == Xor(FeedHighBits(poly, c, w, n), DoubleTimes(w, n))
    decreases n
  {
    if n > 0 {
      HighStepWithBit(poly, c, w);
      HighStepsWithBits(poly, FeedHighBit(poly, c, Negative(w)), Double(w), n - 1);
    }
  }

  lemma EightHalves(b: bv32)
    ensures Half(Half(Half(Half(Half(Half(Half(Half(b)))))))) == High(b)
  {
  }

  lemma EightDoubles(b: bv32)
    ensures Double(Double(Double(Double(Double(Double(Double(Double(b)))))))) == Up(b)
  {
  }

  lemma HalfTimes8(b: bv32)
    ensures HalfTimes(b, 8) == High(b)
  {
    var h := Half(Half(Half(Half(b))));
    EightHalves(b);
    HalfTimes4(b, 4);
    HalfTimes4(h, 0);
  }

  lemma HalfTimes4(b: bv32, n: nat)
    ensures HalfTimes(b, n + 4) == HalfTimes(Half(Half(Half(Half(b)))), n)
  {
    assert HalfTimes(b, n + 4) == HalfTimes(Half(b), n + 3) == HalfTimes(Half(Half(b)), n + 2);
    assert HalfTimes(Half(Half(b)), n + 2) == HalfTimes(Half(Half(Half(b))), n + 1);
  }

  lemma DoubleTimes8(b: bv32)
    ensures DoubleTimes(b, 8) == Up(b)
  {
    var h := Double(Double(Double(Double(b))));
    EightDoubles(b);
    DoubleTimes4(b, 4);
    DoubleTimes4(h, 0);
  }

  lemma DoubleTimes4(b: bv32, n: nat)
    ensures DoubleTimes(b, n + 4) == DoubleTimes(Double(Double(Double(Double(b)))), n)
  {
    assert DoubleTimes(b, n + 4) == DoubleTimes(Double(b), n + 3) == DoubleTimes(Double(Double(b)), n + 2);
    assert DoubleTimes(Double(Double(b)), n + 2) == DoubleTimes(Double(Double(Double(b))), n + 1);
  }

  /** Eight message bits are eight steps on the register with the byte xored in. */
  lemma ByteIsEightSteps(poly: bv32, c: bv32, b: bv32)
    requires IsByte(b)
    ensures FeedBits(poly, c, b, 8) == Steps(poly, Xor(c, b), 8)
  {
    StepsWithBits(poly, c, b, 8);
    HalfTimes8(b);
    ByteParts(b);
    XorZero(FeedBits(poly, c, b, 8));
  }

  lemma HighByteIsEightSteps(poly: bv32, c: bv32, b: bv8)
    ensures FeedHighBits(poly, c, AtTop(b), 8) == HighSteps(poly, Xor(c, AtTop(b)), 8)
  {
    HighStepsWithBits(poly, c, AtTop(b), 8);
    DoubleTimes8(AtTop(b));
    assert Up(AtTop(b)) == 0;
    XorZero(FeedHighBits(poly, c, AtTop(b), 8));
  }

  // ---------- Eight steps are one table look-up ----------

  ghost predicate Quiet(c: bv32, n: nat)
    decreases n
  {
    n == 0 || (!Odd(c) && Quiet(Half(c), n - 1))
  }

  ghost predicate QuietHigh(c: bv32, n: nat)
    decreases n
  {
    n == 0 || (!Negative(c) && QuietHigh(Double(c), n - 1))
  }

  /** Steps whose outgoing bits are all zero only shift. */
  lemma {:induction false} QuietSteps(poly: bv32, c: bv32, n: nat)
    requires Quiet(c, n)
    ensures Steps(poly, c, n) == HalfTimes(c, n)
    decreases n
  {
    if n > 0 { QuietSteps(poly, Half(c), n - 1); }
  }

  lemma {:induction false} QuietHighSteps(poly: bv32, c: bv32, n: nat)
    requires QuietHigh(c, n)
    ensures HighSteps(poly, c, n) == DoubleTimes(c, n)
    decreases n
  {
    if n > 0 { QuietHighSteps(poly, Double(c), n - 1); }
  }

  lemma LowZeroIsQuiet(c: bv32)
    requires Low(c) == 0
    ensures Quiet(c, 8)
  {
    var h := Half(Half(Half(Half(c))));
    assert !Odd(h) && !Odd(Half(h)) && !Odd(Half(Half(h))) && !Odd(Half(Half(Half(h))));
    assert Quiet(h, 4) by {
      assert Quiet(Half(Half(Half(h))), 1);
      assert Quiet(Half(Half(h)), 2);
      assert Quiet(Half(h), 3);
    }
    assert !Odd(c) && !Odd(Half(c)) && !Odd(Half(Half(c))) && !Odd(Half(Half(Half(c))));
    assert Quiet(Half(Half(Half(c))), 5);
    assert Quiet(Half(Half(c)), 6);
    assert Quiet(Half(c), 7);
  }

  lemma TopZeroIsQuiet(c: bv32)
    requires c <= 0xffffff
    ensures QuietHigh(c, 8)
  {
    var h := Double(Double(Double(Double(c))));
    assert !Negative(h) && !Negative(Double(h)) && !Negative(Double(Double(h))) && !Negative(Double(Double(Double(h))));
    assert QuietHigh(h, 4) by {
      assert QuietHigh(Double(Double(Double(h))), 1);
      assert QuietHigh(Double(Double(h)), 2);
      assert QuietHigh(Double(h), 3);
    }
    assert !Negative(c) && !Negative(Double(c)) && !Negative(Double(Double(c))) && !Negative(Double(Double(Double(c))));
    assert QuietHigh(Double(Double(Double(c))), 5);
    assert QuietHigh(Double(Double(c)), 6);
    assert QuietHigh(Double(c), 7);
  }

  // ---------- Reflected tables ----------

  /** The first slice holds eight steps of every byte. */
  ghost predicate Reflected(poly: bv32, t: Table) {
    Sliced(t) && forall b {:trigger Entry(t, 0, b)} :: IsByte(b) ==> Entry(t, 0, b) == Steps(poly, b, 8)
  }

  lemma SplitLow(s: bv32) returns (v: bv32)
    ensures v == High(s) && s == Xor(Low(s), Up(v)) && Low(Up(v)) == 0 && High(Up(v)) == v && IsByte(Low(s))
  {
    v := High(s);
    SplitXor(s);
    SplitUp(s);
  }

  lemma SplitXor(s: bv32)
    ensures s == Xor(Low(s), Up(High(s)))
  {
  }

  lemma SplitUp(s: bv32)
    ensures Low(Up(High(s))) == 0 && High(Up(High(s))) == High(s) && IsByte(Low(s))
  {
  }

  lemma TurnIsEightSteps(poly: bv32, t: Table, s: bv32)
    requires Reflected(poly, t)
    ensures Turn(t, s) == Steps(poly, s, 8)
  {
    var v := SplitLow(s);
    StepsAreLinear(poly, Low(s), Up(v), 8);
    LowZeroIsQuiet(Up(v));
    QuietSteps(poly, Up(v), 8);
    HalfTimes8(Up(v));
    XorComm(High(s), Entry(t, 0, Low(s)));
  }

  lemma ByteXor(a: bv32, b: bv32)
    requires IsByte(a) && IsByte(b)
    ensures IsByte(Xor(a, b))
  {
  }

  lemma ReflectedIsLinear(poly: bv32, t: Table)
    requires Reflected(poly, t)
    ensures Linear(t)
  {
    forall a, b | IsByte(a) && IsByte(b)
      ensures LinearAt(t, a, b)
    {
      ByteXor(a, b);
      StepsAreLinear(poly, a, b, 8);
    }
  }

  /** The table form computes the reflected CRC, whatever the polynomial. */
  lemma {:induction false} BytesAreReflectedCrc(poly: bv32, t: Table, c: bv32, data: seq<bv8>)
    requires Reflected(poly, t)
    ensures Bytes(t, c, data) == BitCrc(poly, c, data)
  {
    if data != [] {
      var front, b := data[..|data| - 1], data[|data| - 1];
      BytesAreReflectedCrc(poly, t, c, front);
      var s := Bytes(t, c, front);
      assert IsByte(b as bv32);
      ByteIsEightSteps(poly, s, b as bv32);
      TurnIsEightSteps(poly, t, Xor(s, b as bv32));
    }
  }

  // ---------- Byte-swapped tables ----------

  lemma Rev32Parts(a: bv32, b: bv32)
    ensures Rev32(Xor(a, b)) == Xor(Rev32(a), Rev32(b))
  {
  }

  function Top(b: bv32): bv32 { b << 24 }

  /** The first slice holds, byte-swapped, eight high steps of every byte at the top. */
  ghost predicate Swapped(poly: bv32, t: Table) {
    Sliced(t) && forall b {:trigger Entry(t, 0, b)} :: IsByte(b) ==> Entry(t, 0, b) == Rev32(HighSteps(poly, Top(b), 8))
  }

  lemma SplitTop(c: bv32) returns (rest: bv32)
    ensures c == Xor(Top(Low(Rev32(c))), rest) && rest <= 0xffffff && Rev32(Up(rest)) == High(Rev32(c))
      && IsByte(Low(Rev32(c)))
  {
    rest := c & 0xffffff;
    TopOfRev(c);
    RevOfRest(c);
  }

  lemma TopOfRev(c: bv32)
    ensures c == Xor(Top(Low(Rev32(c))), c & 0xffffff) && IsByte(Low(Rev32(c)))
  {
    assert Low(Rev32(c)) == c >> 24;
  }

  lemma RevOfRest(c: bv32)
    ensures Rev32(Up(c & 0xffffff)) == High(Rev32(c))
  {
    var v := (c & 0xffffff) << 8;
    Rev32Form(v);
    Rev32Form(c);
    FormOfRest(v, c);
  }

  lemma FormOfRest(v: bv32, c: bv32)
    requires v == (c & 0xffffff) << 8
    ensures (v >> 24) | ((v >> 8) & 0xff00) | ((v << 8) & 0xff0000) | (v << 24)
         == ((c >> 24) | ((c >> 8) & 0xff00) | ((c << 8) & 0xff0000) | (c << 24)) >> 8
  {
  }

  /** The table form keeps the byte-swapped register in step. */
  lemma TurnIsEightHighSteps(poly: bv32, t: Table, c: bv32)
    requires Swapped(poly, t)
    ensures Turn(t, Rev32(c)) == Rev32(HighSteps(poly, c, 8))
  {
    var rest := SplitTop(c);
    var b := Low(Rev32(c));
    HighStepsAreLinear(poly, Top(b), rest, 8);
    TopZeroIsQuiet(rest);
    QuietHighSteps(poly, rest, 8);
    DoubleTimes8(rest);
    Rev32Parts(HighSteps(poly, Top(b), 8), Up(rest));
    XorComm(High(Rev32(c)), Entry(t, 0, b));
  }

  lemma TopXor(a: bv32, b: bv32)
    ensures Top(Xor(a, b)) == Xor(Top(a), Top(b))
  {
  }

  lemma SwappedIsLinear(poly: bv32, t: Table)
    requires Swapped(poly, t)
    ensures Linear(t)
  {
    forall a, b | IsByte(a) && IsByte(b)
      ensures LinearAt(t, a, b)
    {
      ByteXor(a, b);
      TopXor(a, b);
      HighStepsAreLinear(poly, Top(a), Top(b), 8);
      Rev32Parts(HighSteps(poly, Top(a), 8), HighSteps(poly, Top(b), 8));
    }
  }

  lemma SwapByte(c: bv32, b: bv8)
    ensures Xor(Rev32(c), b as bv32) == Rev32(Xor(c, AtTop(b)))
  {
  }

  /** At every step the register of the table form is REV32 of the unreflected bitwise register. */
  lemma {:induction false} BytesAreSwappedCrc(poly: bv32, t: Table, c: bv32, data: seq<bv8>)
    requires Swapped(poly, t)
    ensures Bytes(t, Rev32(c), data) == Rev32(HighBitCrc(poly, c, data))
  {
    if data != [] {
      var front, b := data[..|data| - 1], data[|data| - 1];
      BytesAreSwappedCrc(poly, t, c, front);
      var h := HighBitCrc(poly, c, front);
      SwapByte(h, b);
      TurnIsEightHighSteps(poly, t, Xor(h, AtTop(b)));
      HighByteIsEightSteps(poly, h, b);
    }
  }
}
