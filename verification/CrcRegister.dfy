/** The 16-bit shift register of the Q-channel CRC (section 22.3 of ECMA-130: polynomial x^16 + x^12 + x^5 + 1),
    bit by bit. */
module CrcRegister {

  /** One data bit entering the register. */
  function SerialBit(c: bv16, bit: bool): bv16 {
    if (c & 0x8000 != 0) != bit then (c << 1) ^ 0x1021 else c << 1
  }

  /** The eight bits of a byte entering the register, most significant first. */
  function SerialByte(c: bv16, d: bv8): bv16 {
    var c1 := SerialBit(SerialBit(c, d & 0x80 != 0), d & 0x40 != 0);
    var c2 := SerialBit(SerialBit(c1, d & 0x20 != 0), d & 0x10 != 0);
    var c3 := SerialBit(SerialBit(c2, d & 0x08 != 0), d & 0x04 != 0);
    SerialBit(SerialBit(c3, d & 0x02 != 0), d & 0x01 != 0)
  }

  /** The register shifted without data. */
  function Step(c: bv16): bv16 {
    if c & 0x8000 != 0 then (c << 1) ^ 0x1021 else c << 1
  }

  function Step2(c: bv16): bv16 {
    Step(Step(c))
  }

  function Step4(c: bv16): bv16 {
    Step2(Step2(c))
  }

  function Step8(c: bv16): bv16 {
    Step4(Step4(c))
  }

  predicate IsXor(s: bv16, a: bv16, b: bv16) {
    s == a ^ b
  }

  lemma ShiftXor(a: bv16, b: bv16)
    ensures (a ^ b) << 1 == (a << 1) ^ (b << 1)
  {
  }

  lemma TopXor(a: bv16, b: bv16)
    ensures (a ^ b) & 0x8000 == (a & 0x8000) ^ (b & 0x8000)
    ensures a & 0x8000 == 0 || a & 0x8000 == 0x8000
  {
  }

  lemma XorAround(x: bv16, y: bv16, f: bv16)
    ensures (x ^ f) ^ y == (x ^ y) ^ f && x ^ (y ^ f) == (x ^ y) ^ f && (x ^ f) ^ (y ^ f) == x ^ y
  {
  }

  /** Shifting is linear over exclusive or. */
  lemma StepLinear(s: bv16, a: bv16, b: bv16)
    requires IsXor(s, a, b)
    ensures IsXor(Step(s), Step(a), Step(b))
  {
    ShiftXor(a, b);
    TopXor(a, b);
    TopXor(b, a);
    XorAround(a << 1, b << 1, 0x1021);
  }

  lemma Step2Linear(s: bv16, a: bv16, b: bv16)
    requires IsXor(s, a, b)
    ensures IsXor(Step2(s), Step2(a), Step2(b))
  {
    StepLinear(s, a, b);
    StepLinear(Step(s), Step(a), Step(b));
  }

  lemma Step4Linear(s: bv16, a: bv16, b: bv16)
    requires IsXor(s, a, b)
    ensures IsXor(Step4(s), Step4(a), Step4(b))
  {
    Step2Linear(s, a, b);
    Step2Linear(Step2(s), Step2(a), Step2(b));
  }

  lemma Step8Linear(s: bv16, a: bv16, b: bv16)
    requires IsXor(s, a, b)
    ensures IsXor(Step8(s), Step8(a), Step8(b))
  {
    Step4Linear(s, a, b);
    Step4Linear(Step4(s), Step4(a), Step4(b));
  }

  /** A data bit entering the register is the bit laid over its top and shifted through; the data `d` still to
      come stays laid over it. */
  lemma BitLaidOver(c: bv16, d: bv16, bit: bool, s: bv16)
    requires bit <==> d & 0x8000 != 0
    requires IsXor(s, c, d)
    ensures IsXor(Step(s), SerialBit(c, bit), d << 1)
  {
    ShiftXor(c, d);
    TopXor(c, d);
    TopXor(d, c);
    XorAround(c << 1, d << 1, 0x1021);
  }

  lemma NextBit(d: bv16)
    ensures (d << 1) & 0x8000 != 0 <==> d & 0x4000 != 0
    ensures (d << 1) << 1 == d << 2
  {
  }

  lemma TwoBits(c: bv16, d: bv16, b1: bool, b2: bool, s: bv16)
    requires (b1 <==> d & 0x8000 != 0) && (b2 <==> d & 0x4000 != 0)
    requires IsXor(s, c, d)
    ensures IsXor(Step2(s), SerialBit(SerialBit(c, b1), b2), d << 2)
  {
    BitLaidOver(c, d, b1, s);
    NextBit(d);
    BitLaidOver(SerialBit(c, b1), d << 1, b2, Step(s));
  }

  /** The bits of a byte laid over the upper half. */
  lemma BitsOf(d: bv8, x: bv16)
    requires x == (d as bv16) << 8
    ensures (d & 0x80 != 0 <==> x & 0x8000 != 0) && (d & 0x40 != 0 <==> x & 0x4000 != 0)
    ensures (d & 0x20 != 0 <==> (x << 2) & 0x8000 != 0) && (d & 0x10 != 0 <==> (x << 2) & 0x4000 != 0)
    ensures (d & 0x08 != 0 <==> (x << 4) & 0x8000 != 0) && (d & 0x04 != 0 <==> (x << 4) & 0x4000 != 0)
    ensures (d & 0x02 != 0 <==> (x << 6) & 0x8000 != 0) && (d & 0x01 != 0 <==> (x << 6) & 0x4000 != 0)
    ensures (x << 2) << 2 == x << 4 && (x << 4) << 2 == x << 6 && (x << 6) << 2 == 0
  {
  }

  lemma XorZero(s: bv16, c: bv16)
    requires IsXor(s, c, 0)
    ensures s == c
  {
  }

  /** A byte entering bit by bit is the byte laid over the register's upper half and shifted through. */
  lemma SerialIsStep8(c: bv16, d: bv8, x: bv16, s: bv16)
    requires x == (d as bv16) << 8 && IsXor(s, c, x)
    ensures SerialByte(c, d) == Step8(s)
  {
    BitsOf(d, x);
    TwoBits(c, x, d & 0x80 != 0, d & 0x40 != 0, s);
    var c1 := SerialBit(SerialBit(c, d & 0x80 != 0), d & 0x40 != 0);
    TwoBits(c1, x << 2, d & 0x20 != 0, d & 0x10 != 0, Step2(s));
    var c2 := SerialBit(SerialBit(c1, d & 0x20 != 0), d & 0x10 != 0);
    TwoBits(c2, x << 4, d & 0x08 != 0, d & 0x04 != 0, Step4(s));
    var c3 := SerialBit(SerialBit(c2, d & 0x08 != 0), d & 0x04 != 0);
    TwoBits(c3, x << 6, d & 0x02 != 0, d & 0x01 != 0, Step2(Step4(s)));
    XorZero(Step8(s), SerialByte(c, d));
  }
}
