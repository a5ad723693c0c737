/** The CRC of CAL0 blocks: a nibble table against the bit-serial definition
    (sphaira/include/cal0_battery.hpp, Crc16). */
module Crc16 {

  const POLYNOMIAL: bv16 := 0xA001
  const INITIAL: bv16 := 0x55AA

  /** The 16-bit register. */
  datatype Reg = Reg(bits: bv16)

  function Xor(a: Reg, b: Reg): Reg {
    Reg(a.bits ^ b.bits)
  }

  function OfByte(b: bv8): Reg {
    Reg(b as bv16)
  }

  // ---- the reference: one bit at a time ----

  /** One step of the reflected register: shift right, and xor the polynomial in when a one was shifted out. */
  function BitStep(r: Reg): Reg {
    Reg((r.bits >> 1) ^ (POLYNOMIAL & (0 - (r.bits & 1))))
  }

  function BitSteps(r: Reg, n: nat): Reg
    decreases n
  {
    if n == 0 then r else BitSteps(BitStep(r), n - 1)
  }

  /** A byte is xored into the low end, then shifted out bit by bit. */
  function ByteStep(r: Reg, b: bv8): Reg {
    BitSteps(Xor(r, OfByte(b)), 8)
  }

  function CrcFrom(r: Reg, data: seq<bv8>): Reg
    decreases |data|
  {
    if data == [] then r else CrcFrom(ByteStep(r, data[0]), data[1..])
  }

  /** CRC-16, reflected, polynomial 0xA001, initial value 0x55AA. */
  function Crc(data: seq<bv8>): bv16 {
    CrcFrom(Reg(INITIAL), data).bits
  }

  // ---- the nibble table ----

  /** The 16-entry table of the source. */
  function Entry(n: bv16): bv16 {
    if n < 4 then (if n == 0 then 0x0000 else if n == 1 then 0xCC01 else if n == 2 then 0xD801 else 0x1400)
    else if n < 8 then (if n == 4 then 0xF001 else if n == 5 then 0x3C00 else if n == 6 then 0x2800 else 0xE401)
    else if n < 12 then (if n == 8 then 0xA001 else if n == 9 then 0x6C00 else if n == 10 then 0x7800 else 0xB401)
    else if n == 12 then 0x5000 else if n == 13 then 0x9C01 else if n == 14 then 0x8801 else 0x4400
  }

  function Low(b: bv8): bv16 {
    (b as bv16) & 0xF
  }

  function High(b: bv8): bv16 {
    ((b as bv16) >> 4) & 0xF
  }

  /** One of the two updates in Crc16's loop. */
  function NibbleStep(crc: bv16, nibble: bv16): bv16 {
    (crc >> 4) ^ Entry(crc & 0xF) ^ Entry(nibble)
  }

  /** Crc16. */
  method Compute(data: seq<bv8>) returns (crc: bv16)
    ensures crc == Crc(data)
  {
    crc := INITIAL;
    for i := 0 to |data|
      invariant CrcFrom(Reg(crc), data[i..]) == CrcFrom(Reg(INITIAL), data)
    {
      NibblesAreByte(crc, data[i]);
      hide ByteStep, NibbleStep, Low, High;
      crc := NibbleStep(crc, Low(data[i]));
      crc := NibbleStep(crc, High(data[i]));
    }
  }

  function FourSteps(r: Reg): Reg {
    BitStep(BitStep(BitStep(BitStep(r))))
  }

  lemma EightAreTwiceFour(r: Reg)
    ensures BitSteps(r, 8) == FourSteps(FourSteps(r))
  {
    hide BitStep;
    assert BitSteps(r, 8) == BitSteps(FourSteps(r), 4);
  }

  lemma BitStepLinear(a: Reg, b: Reg)
    ensures BitStep(Xor(a, b)) == Xor(BitStep(a), BitStep(b))
  {
  }

  lemma FourStepsLinear(a: Reg, b: Reg)
    ensures FourSteps(Xor(a, b)) == Xor(FourSteps(a), FourSteps(b))
  {
    hide BitStep, Xor;
    BitStepLinear(a, b);
    BitStepLinear(BitStep(a), BitStep(b));
    BitStepLinear(BitStep(BitStep(a)), BitStep(BitStep(b)));
    BitStepLinear(BitStep(BitStep(BitStep(a))), BitStep(BitStep(BitStep(b))));
  }

  function LowNibble(r: Reg): Reg {
    Reg(r.bits & 0xF)
  }

  function HighPart(r: Reg): Reg {
    Reg(r.bits & 0xFFF0)
  }

  function Shifted(r: Reg): Reg {
    Reg(r.bits >> 4)
  }

  lemma Parts(r: Reg)
    ensures Xor(HighPart(r), LowNibble(r)) == r
  {
  }

  // a register whose low nibble is zero is only shifted
  lemma ShiftedOut(r: Reg)
    ensures FourSteps(HighPart(r)) == Shifted(r)
  {
  }

  // the table holds what four steps make of a nibble
  lemma EntryIsFourSteps(n: bv16)
    requires n < 16
    ensures Reg(Entry(n)) == FourSteps(Reg(n))
  {
  }

  lemma NibbleParts(crc: bv16, nibble: bv16)
    ensures var r := Reg(crc);
      && LowNibble(r).bits < 16
      && Reg(NibbleStep(crc, nibble)) == Xor(Xor(Shifted(r), Reg(Entry(LowNibble(r).bits))), Reg(Entry(nibble)))
  {
    hide Entry;
  }

  lemma NibbleStepIs(crc: bv16, nibble: bv16)
    requires nibble < 16
    ensures Reg(NibbleStep(crc, nibble)) == FourSteps(Xor(Reg(crc), Reg(nibble)))
  {
    hide FourSteps, Entry, Xor, NibbleStep, Shifted, HighPart, LowNibble;
    var r := Reg(crc);
    NibbleParts(crc, nibble);
    Parts(r);
    ShiftedOut(r);
    EntryIsFourSteps(LowNibble(r).bits);
    EntryIsFourSteps(nibble);
    FourStepsLinear(HighPart(r), LowNibble(r));
    FourStepsLinear(r, Reg(nibble));
  }

  lemma ByteParts(r: Reg, b: bv8)
    ensures Xor(r, OfByte(b)) == Xor(Xor(r, Reg(Low(b))), HighPart(OfByte(b)))
    ensures Shifted(OfByte(b)) == Reg(High(b))
    ensures Low(b) < 16 && High(b) < 16
  {
  }

  /** Two table steps are one byte of the bit-serial CRC. */
  lemma NibblesAreByte(crc: bv16, b: bv8)
    ensures Reg(NibbleStep(NibbleStep(crc, Low(b)), High(b))) == ByteStep(Reg(crc), b)
  {
    hide FourSteps, NibbleStep, Xor, OfByte, Low, High, HighPart, Shifted, BitSteps;
    var r := Reg(crc);
    var x := Xor(r, Reg(Low(b)));
    ByteParts(r, b);
    NibbleStepIs(crc, Low(b));
    NibbleStepIs(NibbleStep(crc, Low(b)), High(b));
    EightAreTwiceFour(Xor(r, OfByte(b)));
    FourStepsLinear(x, HighPart(OfByte(b)));
    ShiftedOut(OfByte(b));
  }

  // ---- every byte counts ----

  /** BitStep undone: the top bit tells whether the polynomial was xored in. */
  function BitUndo(r: Reg): Reg {
    var one := r.bits >> 15;
    Reg(((r.bits ^ (POLYNOMIAL & (0 - one))) << 1) | one)
  }

  /** Each step is a bijection on the register. */
  lemma BitStepUndone(r: Reg)
    ensures BitUndo(BitStep(r)) == r && BitStep(BitUndo(r)) == r
  {
  }

  lemma {:induction false} BitStepsInjective(a: Reg, b: Reg, n: nat)
    requires BitSteps(a, n) == BitSteps(b, n)
    ensures a == b
    decreases n
  {
    hide BitStep, BitUndo;
    if n > 0 {
      BitStepsInjective(BitStep(a), BitStep(b), n - 1);
      BitStepUndone(a);
      BitStepUndone(b);
    }
  }

  lemma XorCancels(a: Reg, b: Reg, c: Reg)
    ensures Xor(a, c) == Xor(b, c) ==> a == b
    ensures Xor(c, a) == Xor(c, b) ==> a == b
  {
  }

  lemma ByteStepInjective(a: Reg, b: Reg, x: bv8)
    ensures ByteStep(a, x) == ByteStep(b, x) ==> a == b
  {
    hide BitSteps, Xor, OfByte;
    if ByteStep(a, x) == ByteStep(b, x) {
      BitStepsInjective(Xor(a, OfByte(x)), Xor(b, OfByte(x)), 8);
      XorCancels(a, b, OfByte(x));
    }
  }

  lemma ByteStepTellsBytes(r: Reg, x: bv8, y: bv8)
    ensures ByteStep(r, x) == ByteStep(r, y) ==> x == y
  {
    if ByteStep(r, x) == ByteStep(r, y) {
      hide BitSteps, Xor;
      BitStepsInjective(Xor(r, OfByte(x)), Xor(r, OfByte(y)), 8);
      XorCancels(OfByte(x), OfByte(y), r);
    }
  }

  lemma {:induction false} CrcFromInjective(a: Reg, b: Reg, data: seq<bv8>)
    ensures CrcFrom(a, data) == CrcFrom(b, data) ==> a == b
    decreases |data|
  {
    hide ByteStep;
    if data != [] {
      CrcFromInjective(ByteStep(a, data[0]), ByteStep(b, data[0]), data[1..]);
      ByteStepInjective(a, b, data[0]);
    }
  }

  lemma {:induction false} CrcFromConcat(r: Reg, a: seq<bv8>, b: seq<bv8>)
    ensures CrcFrom(r, a + b) == CrcFrom(CrcFrom(r, a), b)
    decreases |a|
  {
    hide ByteStep;
    if a == [] {
      assert a + b == b;
    } else {
      CrcFromConcat(ByteStep(r, a[0]), a[1..], b);
      assert (a + b)[1..] == a[1..] + b;
    }
  }

  /** Two blocks of one length that differ in exactly one byte never share a CRC. */
  lemma OneByteChangesCrc(data: seq<bv8>, i: nat, b: bv8)
    requires i < |data| && data[i] != b
    ensures Crc(data) != Crc(data[i := b])
  {
    hide CrcFrom, ByteStep;
    var front, back := data[..i], data[i + 1..];
    assert data == front + ([data[i]] + back) && data[i := b] == front + ([b] + back);
    CrcFromConcat(Reg(INITIAL), front, [data[i]] + back);
    CrcFromConcat(Reg(INITIAL), front, [b] + back);
    FirstByteChanges(CrcFrom(Reg(INITIAL), front), data[i], b, back);
  }

  lemma FirstByteChanges(r: Reg, x: bv8, y: bv8, back: seq<bv8>)
    requires x != y
    ensures CrcFrom(r, [x] + back) != CrcFrom(r, [y] + back)
  {
    hide ByteStep;
    assert ([x] + back)[1..] == back && ([y] + back)[1..] == back;
    CrcFromInjective(ByteStep(r, x), ByteStep(r, y), back);
    ByteStepTellsBytes(r, x, y);
  }

  /** The constants: nothing has the initial value, and a one that is shifted out leaves the reflected polynomial. */
  lemma Constants()
    ensures Crc([]) == 0x55AA && BitStep(Reg(1)) == Reg(0xA001) && BitStep(Reg(2)) == Reg(1)
  {
  }
}
