/** 32-bit cycle arithmetic. */
module Cycles {

  const TWO32: int := 0x1_0000_0000

  const TWO31: int := 0x8000_0000

  type U32 = x: int | 0 <= x < 0x1_0000_0000

  /** The value of `x` in 32 bits: wrap-around by whole turns, which spares the solver the remainders. */
  function Wrap(x: int): U32
    decreases if x < 0 then 0x1_0000_0000 - x else x
  {
    if x < 0 then Wrap(x + 0x1_0000_0000)
    else if x < 0x1_0000_0000 then x
    else Wrap(x - 0x1_0000_0000)
  }

  /** A 32-bit word read as a signed integer. */
  function S32(x: U32): int {
    if x < 0x8000_0000 then x else x - 0x1_0000_0000
  }

  /** Wrapping is the remainder modulo 2^32. */
  lemma {:induction false} WrapMod(x: int)
    ensures Wrap(x) == x % 0x1_0000_0000
    decreases if x < 0 then 0x1_0000_0000 - x else x
  {
    if x < 0 { WrapMod(x + 0x1_0000_0000); } else if x >= 0x1_0000_0000 { WrapMod(x - 0x1_0000_0000); }
  }

  /** Words congruent modulo 2^32 wrap alike. */
  lemma WrapCongruent(x: int, y: int, k: int)
    requires x == y + k * 0x1_0000_0000
    ensures Wrap(x) == Wrap(y)
  {
    WrapMod(x);
    WrapMod(y);
  }

  lemma WrapIs(x: int) returns (k: int)
    ensures x == Wrap(x) + k * 0x1_0000_0000
  {
    WrapMod(x);
    k := x / 0x1_0000_0000;
  }

  /** Truth survives 32 bits exactly within 2^31 of zero. */
  lemma SignedExact(x: int)
    ensures S32(Wrap(x)) == x <==> -TWO31 <= x < TWO31
  {
  }

  /** Wrapping a part of a difference first changes nothing. */
  lemma WrapParts(a: int, b: int)
    ensures Wrap(a - Wrap(b)) == Wrap(a - b)
    ensures Wrap(Wrap(a) - b) == Wrap(a - b)
  {
    var k := WrapIs(b);
    WrapCongruent(a - Wrap(b), a - b, k);
    var l := WrapIs(a);
    WrapCongruent(Wrap(a) - b, a - b, -l);
  }

  /** The same amount taken from both operands leaves a 32-bit difference alone. */
  lemma WrapShift(a: int, b: int, d: int)
    ensures Wrap(Wrap(a - d) - Wrap(b - d)) == Wrap(a - b)
  {
    WrapParts(a - d, Wrap(b - d));
    WrapParts(a - d, b - d);
  }

  /** A 32-bit elapsed count follows the true one as long as that stays below 2^32. */
  lemma WrapAdvance(a: int, b: int, d: nat)
    requires Wrap(a - b) + d < TWO32
    ensures Wrap(Wrap(a + d) - b) == Wrap(a - b) + d
  {
    WrapParts(a + d, b);
    var k := WrapIs(a - b);
    WrapCongruent(a + d - b, Wrap(a - b) + d, k);
  }

  /** A start time set back by `p` cycles is `p` cycles ago. */
  lemma SetBack(now: int, p: U32)
    ensures Wrap(now - Wrap(now - p)) == p
  {
    WrapParts(now, now - p);
  }
}
