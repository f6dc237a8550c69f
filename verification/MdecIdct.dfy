/** The MDEC block decoder (src/mdec.cpp:83-305): run-length decoding into 8x8 blocks, and the inverse
    transform that skips work by a mask of used columns.

    Machine integers are 32 bits wide and wrap around; right shifts of negative numbers round down. */
module MdecIdct {
  type Int32 = x: int | -0x8000_0000 <= x < 0x8000_0000

  type Block = b: seq<Int32> | |b| == 64 witness seq(64, _ => 0)

  type Line = p: seq<Int32> | |p| == 8 witness seq(8, _ => 0)

  /** The four values of half a transform. */
  type Half = h: seq<Int32> | |h| == 4 witness [0, 0, 0, 0]

  /** What a machine word holds after an operation with the exact result `x`.  C leaves the result of a signed
      overflow open, and so does this model: nothing below asks for more than that a result in range is kept. */
  type Word = int -> Int32

  function Fit(w: Word, x: int): Int32 {
    w(x)
  }

  ghost predicate Exact(w: Word) {
    forall x: Int32 :: Fit(w, x) == x
  }

  function Add(w: Word, x: Int32, y: Int32): Int32 {
    Fit(w, x as int + y as int)
  }

  function Sub(w: Word, x: Int32, y: Int32): Int32 {
    Fit(w, x as int - y as int)
  }

  /** Multiplications by the 12-bit fixed-point constants A4, A2, B2 and B6 (src/mdec.cpp:53-58). */
  function MulA4(w: Word, x: Int32): Int32 {
    Fit(w, 5793 * x as int)
  }

  function MulA2(w: Word, x: Int32): Int32 {
    Fit(w, 7568 * x as int)
  }

  function MulB2(w: Word, x: Int32): Int32 {
    Fit(w, 10703 * x as int)
  }

  function MulB6(w: Word, x: Int32): Int32 {
    Fit(w, 4433 * x as int)
  }

  /** A right shift by twelve bits. */
  function Shr12(x: Int32): Int32 {
    (x as int) / 4096
  }

  /** The even half of the eight-point transform of `idct` (src/mdec.cpp:110-119 and 169-177). */
  function Even(w: Word, p: Line): Half {
    var s04, d04, s26 := Add(w, p[0], p[4]), Sub(w, p[0], p[4]), Add(w, p[2], p[6]);
    var d26 := Sub(w, Shr12(MulA4(w, Sub(w, p[2], p[6]))), s26);
    [Add(w, s04, s26), Add(w, d04, d26), Sub(w, d04, d26), Sub(w, s04, s26)]
  }

  /** The odd half (src/mdec.cpp:121-131 and 179-188). */
  function Odd(w: Word, p: Line): Half {
    var s53, d53, s17, d17 := Add(w, p[3], p[5]), Sub(w, p[3], p[5]), Add(w, p[1], p[7]), Sub(w, p[1], p[7]);
    var tmp7 := Add(w, s17, s53);
    var z5 := MulA2(w, Sub(w, d17, d53));
    var tmp6 := Sub(w, Shr12(Add(w, MulB2(w, d53), z5)), tmp7);
    var tmp5 := Sub(w, Shr12(MulA4(w, Sub(w, s17, s53))), tmp6);
    [Add(w, Shr12(Sub(w, MulB6(w, d17), z5)), tmp5), tmp5, tmp6, tmp7]
  }

  /** The eight-point transform (src/mdec.cpp:110-160 and 169-198). */
  function Butterfly(w: Word, p: Line): Line {
    var e, o := Even(w, p), Odd(w, p);
    [Add(w, e[0], o[3]), Add(w, e[1], o[2]), Add(w, e[2], o[1]), Sub(w, e[3], o[0]),
     Add(w, e[3], o[0]), Sub(w, e[2], o[1]), Sub(w, e[1], o[2]), Sub(w, e[0], o[3])]
  }

  function Constant(v: Int32): Line {
    [v, v, v, v, v, v, v, v]
  }

  /** A line with a first value only. */
  function Impulse(v: Int32): Line {
    [v, 0, 0, 0, 0, 0, 0, 0]
  }

  type Transform = Line -> Line

  function Apply(f: Transform, p: Line): Line {
    f(p)
  }

  /** The transform of a line with a first value only is constant. */
  ghost predicate Flat(f: Transform) {
    forall v :: Apply(f, Impulse(v)) == Constant(v)
  }

  function Transform8(w: Word): Transform {
    p => Butterfly(w, p)
  }

  lemma EvenImpulse(w: Word, v: Int32)
    requires Exact(w)
    ensures Even(w, Impulse(v)) == [v, v, v, v]
  {
  }

  lemma ZeroOperations(w: Word)
    requires Exact(w)
    ensures Add(w, 0, 0) == 0 == Sub(w, 0, 0) && Shr12(0) == 0
    ensures MulA2(w, 0) == 0 == MulA4(w, 0) && MulB2(w, 0) == 0 == MulB6(w, 0)
  {
  }

  lemma OddImpulse(w: Word, v: Int32)
    requires Exact(w)
    ensures Odd(w, Impulse(v)) == [0, 0, 0, 0]
  {
    hide Add, Sub, Shr12, MulA2, MulA4, MulB2, MulB6;
    ZeroOperations(w);
  }

  lemma ButterflyImpulse(w: Word, v: Int32)
    requires Exact(w)
    ensures Butterfly(w, Impulse(v)) == Constant(v)
  {
    EvenImpulse(w, v);
    OddImpulse(w, v);
  }

  /** What the short cuts of `idct` rely on. */
  lemma ButterflyIsFlat(w: Word)
    requires Exact(w)
    ensures Flat(Transform8(w))
  {
    forall v: Int32 ensures Apply(Transform8(w), Impulse(v)) == Constant(v) {
      ButterflyImpulse(w, v);
    }
  }

  // ---------------------------------------------------------------------------
  // The cosines
  // ---------------------------------------------------------------------------

  /** Row `k` of the inverse cosine transform: 4096 cos((2 i + 1) k pi / 16) / cos(k pi / 16) for each `i`, rounded. */
  function CosineRow(k: nat): seq<int>
    requires k < 8
    ensures |CosineRow(k)| == 8
  {
    match k
    case 0 => [4096, 4096, 4096, 4096, 4096, 4096, 4096, 4096]
    case 1 => [4096, 3472, 2320, 815, -815, -2320, -3472, -4096]
    case 2 => [4096, 1697, -1697, -4096, -4096, -1697, 1697, 4096]
    case 3 => [4096, -961, -4832, -2737, 2737, 4832, 961, -4096]
    case 4 => [4096, -4096, -4096, 4096, 4096, -4096, -4096, 4096]
    case 5 => [4096, -7231, 1438, 6130, -6130, -1438, 7231, -4096]
    case 6 => [4096, -9889, 9889, -4096, -4096, 9889, -9889, 4096]
    case 7 => [4096, -11664, 17457, -20592, 20592, -17457, 11664, -4096]
  }

  function Abs(x: int): nat {
    if x < 0 then -x else x
  }

  /** A value is the mean of its neighbours times a constant of the row, up to the rounding. */
  predicate Mean(t: seq<int>, i: nat)
    requires |t| == 8 && 0 < i < 7
  {
    Abs(4096 * (t[i - 1] + t[i + 1]) - (4096 + t[1]) * t[i]) < 3 * 4096
  }

  /** A row swings like a cosine, and continues evenly or oddly beyond its middle. */
  predicate Swings(t: seq<int>, sign: int)
    requires |t| == 8
  {
    && t[0] == 4096 && Mean(t, 1) && Mean(t, 2) && Mean(t, 3)
    && t[4..] == [sign * t[3], sign * t[2], sign * t[1], sign * t[0]]
  }

  /** The table is one of cosines: each row swings, and faster than the one before. */
  lemma CosineSwings(k: nat)
    requires k < 8
    ensures Swings(CosineRow(k), if k % 2 == 0 then 1 else -1)
    ensures k > 0 ==> CosineRow(k)[1] < CosineRow(k - 1)[1]
  {
  }

  /** Value `i` of the inverse cosine transform of a line, in 1/4096. */
  function CosineSum(p: seq<int>, i: nat): int
    requires |p| == 8 && i < 8
  {
    CosineRow(0)[i] * p[0] + CosineRow(1)[i] * p[1] + CosineRow(2)[i] * p[2] + CosineRow(3)[i] * p[3]
    + CosineRow(4)[i] * p[4] + CosineRow(5)[i] * p[5] + CosineRow(6)[i] * p[6] + CosineRow(7)[i] * p[7]
  }

  lemma CosineSum0(p: seq<int>)
    requires |p| == 8
    ensures CosineSum(p, 0)
            == 4096 * p[0] + 4096 * p[1] + 4096 * p[2] + 4096 * p[3]
               + 4096 * p[4] + 4096 * p[5] + 4096 * p[6] + 4096 * p[7]
  {
  }

  lemma CosineSum1(p: seq<int>)
    requires |p| == 8
    ensures CosineSum(p, 1)
            == 4096 * p[0] + 3472 * p[1] + 1697 * p[2] - 961 * p[3]
               - 4096 * p[4] - 7231 * p[5] - 9889 * p[6] - 11664 * p[7]
  {
  }

  lemma CosineSum2(p: seq<int>)
    requires |p| == 8
    ensures CosineSum(p, 2)
            == 4096 * p[0] + 2320 * p[1] - 1697 * p[2] - 4832 * p[3]
               - 4096 * p[4] + 1438 * p[5] + 9889 * p[6] + 17457 * p[7]
  {
  }

  lemma CosineSum3(p: seq<int>)
    requires |p| == 8
    ensures CosineSum(p, 3)
            == 4096 * p[0] + 815 * p[1] - 4096 * p[2] - 2737 * p[3]
               + 4096 * p[4] + 6130 * p[5] - 4096 * p[6] - 20592 * p[7]
  {
  }

  lemma CosineSum4(p: seq<int>)
    requires |p| == 8
    ensures CosineSum(p, 4)
            == 4096 * p[0] - 815 * p[1] - 4096 * p[2] + 2737 * p[3]
               + 4096 * p[4] - 6130 * p[5] - 4096 * p[6] + 20592 * p[7]
  {
  }

  lemma CosineSum5(p: seq<int>)
    requires |p| == 8
    ensures CosineSum(p, 5)
            == 4096 * p[0] - 2320 * p[1] - 1697 * p[2] + 4832 * p[3]
               - 4096 * p[4] - 1438 * p[5] + 9889 * p[6] - 17457 * p[7]
  {
  }

  lemma CosineSum6(p: seq<int>)
    requires |p| == 8
    ensures CosineSum(p, 6)
            == 4096 * p[0] - 3472 * p[1] + 1697 * p[2] + 961 * p[3]
               - 4096 * p[4] + 7231 * p[5] - 9889 * p[6] + 11664 * p[7]
  {
  }

  lemma CosineSum7(p: seq<int>)
    requires |p| == 8
    ensures CosineSum(p, 7)
            == 4096 * p[0] - 4096 * p[1] + 4096 * p[2] - 4096 * p[3]
               + 4096 * p[4] - 4096 * p[5] + 4096 * p[6] - 4096 * p[7]
  {
  }

  /** A line small enough for the products of the transform to stay within 32 bits. */
  predicate Moderate(p: seq<int>)
    requires |p| == 8
  {
    && Abs(p[1]) + Abs(p[3]) + Abs(p[5]) + Abs(p[7]) <= 200_000
    && Abs(p[2]) + Abs(p[6]) <= 370_000 && Abs(p[0]) + Abs(p[4]) <= 0x3000_0000
  }

  predicate InWord(x: int) {
    -0x8000_0000 <= x < 0x8000_0000
  }

  lemma FitIs(w: Word, x: int)
    requires Exact(w) && InWord(x)
    ensures Fit(w, x) == x
  {
    var y: Int32 := x;
    assert Fit(w, y) == y;
  }

  lemma AddIs(w: Word, x: Int32, y: Int32)
    requires Exact(w) && InWord(x + y)
    ensures Add(w, x, y) == x + y
  {
    FitIs(w, x + y);
  }

  lemma SubIs(w: Word, x: Int32, y: Int32)
    requires Exact(w) && InWord(x - y)
    ensures Sub(w, x, y) == x - y
  {
    FitIs(w, x - y);
  }

  lemma MulIs(w: Word, x: Int32)
    requires Exact(w) && -200_000 <= x <= 200_000
    ensures MulA2(w, x) == 7568 * x && MulB2(w, x) == 10703 * x && MulB6(w, x) == 4433 * x
  {
    FitIs(w, 7568 * x);
    FitIs(w, 10703 * x);
    FitIs(w, 4433 * x);
  }

  lemma MulA4Is(w: Word, x: Int32)
    requires Exact(w) && -370_000 <= x <= 370_000
    ensures MulA4(w, x) == 5793 * x
  {
    FitIs(w, 5793 * x);
  }

  lemma Shr12Is(x: Int32)
    ensures 4096 * Shr12(x) <= x < 4096 * Shr12(x) + 4096
  {
  }

  /** The values of the even half before its product. */
  lemma EvenBounds(x0: int, x2: int, x4: int, x6: int)
    requires Abs(x2) + Abs(x6) <= 370_000 && Abs(x0) + Abs(x4) <= 0x3000_0000
    ensures -370_000 <= x2 + x6 <= 370_000 && -370_000 <= x2 - x6 <= 370_000
    ensures -0x3000_0000 <= x0 + x4 <= 0x3000_0000 && -0x3000_0000 <= x0 - x4 <= 0x3000_0000
  {
  }

  /** The even half, with no overflow: `a` is the only rounded product. */
  lemma EvenIs(w: Word, p: Line) returns (a: int)
    requires Exact(w) && Moderate(p)
    ensures 4096 * a <= 5793 * (p[2] - p[6]) < 4096 * a + 4096
    ensures Even(w, p) == [p[0] + p[4] + p[2] + p[6], p[0] - p[4] + a - p[2] - p[6],
                           p[0] - p[4] - a + p[2] + p[6], p[0] + p[4] - p[2] - p[6]]
  {
    EvenBounds(p[0], p[2], p[4], p[6]);
    hide Exact, Fit, Add, Sub, MulA4, Shr12, Moderate, Abs;
    var s04, d04, s26, m := Add(w, p[0], p[4]), Sub(w, p[0], p[4]), Add(w, p[2], p[6]), Sub(w, p[2], p[6]);
    AddIs(w, p[0], p[4]);
    SubIs(w, p[0], p[4]);
    AddIs(w, p[2], p[6]);
    SubIs(w, p[2], p[6]);
    MulA4Is(w, m);
    Shr12Is(MulA4(w, m));
    a := Shr12(MulA4(w, m));
    SubIs(w, a, s26);
    var d26 := Sub(w, a, s26);
    AddIs(w, s04, s26);
    AddIs(w, d04, d26);
    SubIs(w, d04, d26);
    SubIs(w, s04, s26);
  }

  /** The values between the products of the odd half. */
  lemma OddBounds(x1: int, x3: int, x5: int, x7: int)
    requires Abs(x1) + Abs(x3) + Abs(x5) + Abs(x7) <= 200_000
    ensures -200_000 <= x3 + x5 <= 200_000 && -200_000 <= x3 - x5 <= 200_000
    ensures -200_000 <= x1 + x7 <= 200_000 && -200_000 <= x1 - x7 <= 200_000
    ensures -200_000 <= x1 + x7 + (x3 + x5) <= 200_000 && -200_000 <= x1 + x7 - (x3 + x5) <= 200_000
    ensures -200_000 <= x1 - x7 - (x3 - x5) <= 200_000
    ensures InWord(10703 * (x3 - x5) + 7568 * (x1 - x7 - (x3 - x5)))
    ensures InWord(4433 * (x1 - x7) - 7568 * (x1 - x7 - (x3 - x5)))
  {
  }

  /** `b`, `c` and `d` are the products of the odd half rounded down. */
  predicate Products(p: seq<int>, b: int, c: int, d: int)
    requires |p| == 8
  {
    && 4096 * b <= 10703 * (p[3] - p[5]) + 7568 * (p[1] - p[7] - (p[3] - p[5])) < 4096 * b + 4096
    && 4096 * c <= 5793 * (p[1] + p[7] - (p[3] + p[5])) < 4096 * c + 4096
    && 4096 * d <= 4433 * (p[1] - p[7]) - 7568 * (p[1] - p[7] - (p[3] - p[5])) < 4096 * d + 4096
  }

  /** The three products of the odd half, from the sums and differences before them. */
  lemma OddProducts(w: Word, p: Line, s53: Int32, d53: Int32, s17: Int32, d17: Int32) returns (b: int, c: int, d: int)
    requires Exact(w) && Moderate(p)
    requires s53 == p[3] + p[5] && d53 == p[3] - p[5] && s17 == p[1] + p[7] && d17 == p[1] - p[7]
    ensures b == Shr12(Add(w, MulB2(w, d53), MulA2(w, Sub(w, d17, d53))))
    ensures c == Shr12(MulA4(w, Sub(w, s17, s53)))
    ensures d == Shr12(Sub(w, MulB6(w, d17), MulA2(w, Sub(w, d17, d53))))
    ensures Products(p, b, c, d)
    ensures -1_000_000 <= b <= 1_000_000 && -1_000_000 <= c <= 1_000_000 && -1_000_000 <= d <= 1_000_000
  {
    OddBounds(p[1], p[3], p[5], p[7]);
    hide Exact, Fit, Add, Sub, MulA2, MulA4, MulB2, MulB6, Shr12, Moderate, Abs;
    SubIs(w, d17, d53);
    SubIs(w, s17, s53);
    MulIs(w, Sub(w, d17, d53));
    MulIs(w, d53);
    MulIs(w, d17);
    MulA4Is(w, Sub(w, s17, s53));
    var z5 := MulA2(w, Sub(w, d17, d53));
    AddIs(w, MulB2(w, d53), z5);
    SubIs(w, MulB6(w, d17), z5);
    b, c, d := Shr12(Add(w, MulB2(w, d53), z5)), Shr12(MulA4(w, Sub(w, s17, s53))), Shr12(Sub(w, MulB6(w, d17), z5));
    Shr12Is(Add(w, MulB2(w, d53), z5));
    Shr12Is(MulA4(w, Sub(w, s17, s53)));
    Shr12Is(Sub(w, MulB6(w, d17), z5));
  }

  /** The values of the odd half, from its products and the sums before them. */
  lemma OddValues(w: Word, b: Int32, c: Int32, d: Int32, s17: Int32, s53: Int32)
    requires Exact(w) && -1_000_000 <= b <= 1_000_000 && -1_000_000 <= c <= 1_000_000 && -1_000_000 <= d <= 1_000_000
    requires -200_000 <= s17 <= 200_000 && -200_000 <= s53 <= 200_000
    ensures var tmp7 := Add(w, s17, s53);
            var tmp6 := Sub(w, b, tmp7);
            var tmp5 := Sub(w, c, tmp6);
            [Add(w, d, tmp5), tmp5, tmp6, tmp7] == [d + c - b + s17 + s53, c - b + s17 + s53, b - s17 - s53, s17 + s53]
  {
    hide Exact, Fit, Add, Sub;
    AddIs(w, s17, s53);
    var tmp7 := Add(w, s17, s53);
    SubIs(w, b, tmp7);
    var tmp6 := Sub(w, b, tmp7);
    SubIs(w, c, tmp6);
    AddIs(w, d, Sub(w, c, tmp6));
  }

  /** The sums and differences the odd half begins with. */
  lemma OddSums(w: Word, p: Line) returns (s53: Int32, d53: Int32, s17: Int32, d17: Int32)
    requires Exact(w) && Moderate(p)
    ensures Add(w, p[3], p[5]) == s53 == p[3] + p[5] && Sub(w, p[3], p[5]) == d53 == p[3] - p[5]
    ensures Add(w, p[1], p[7]) == s17 == p[1] + p[7] && Sub(w, p[1], p[7]) == d17 == p[1] - p[7]
    ensures -200_000 <= s17 <= 200_000 && -200_000 <= s53 <= 200_000
  {
    OddBounds(p[1], p[3], p[5], p[7]);
    hide Exact, Fit, Add, Sub, Moderate, Abs;
    AddIs(w, p[3], p[5]);
    SubIs(w, p[3], p[5]);
    AddIs(w, p[1], p[7]);
    SubIs(w, p[1], p[7]);
    s53, d53, s17, d17 := Add(w, p[3], p[5]), Sub(w, p[3], p[5]), Add(w, p[1], p[7]), Sub(w, p[1], p[7]);
  }

  lemma OddUnfolded(w: Word, p: Line, s53: Int32, d53: Int32, s17: Int32, d17: Int32, b: Int32, c: Int32, d: Int32)
    requires s53 == Add(w, p[3], p[5]) && d53 == Sub(w, p[3], p[5])
    requires s17 == Add(w, p[1], p[7]) && d17 == Sub(w, p[1], p[7])
    requires b == Shr12(Add(w, MulB2(w, d53), MulA2(w, Sub(w, d17, d53)))) && c == Shr12(MulA4(w, Sub(w, s17, s53)))
    requires d == Shr12(Sub(w, MulB6(w, d17), MulA2(w, Sub(w, d17, d53))))
    ensures var tmp7 := Add(w, s17, s53);
            var tmp6 := Sub(w, b, tmp7);
            var tmp5 := Sub(w, c, tmp6);
            Odd(w, p) == [Add(w, d, tmp5), tmp5, tmp6, tmp7]
  {
    hide Add, Sub, MulA2, MulA4, MulB2, MulB6, Shr12;
  }

  /** The odd half: `b`, `c` and `d` are the rounded products. */
  lemma OddIs(w: Word, p: Line) returns (b: int, c: int, d: int)
    requires Exact(w) && Moderate(p)
    ensures Products(p, b, c, d)
    ensures Odd(w, p) == [d + c - b + (p[1] + p[7]) + (p[3] + p[5]), c - b + (p[1] + p[7]) + (p[3] + p[5]),
                          b - (p[1] + p[7]) - (p[3] + p[5]), (p[1] + p[7]) + (p[3] + p[5])]
  {
    hide Exact, Fit, Odd, Add, Sub, MulA2, MulA4, MulB2, MulB6, Shr12, Moderate, Abs, InWord, Products;
    var s53, d53, s17, d17 := OddSums(w, p);
    b, c, d := OddProducts(w, p, s53, d53, s17, d17);
    OddUnfolded(w, p, s53, d53, s17, d17, b, c, d);
    OddValues(w, b, c, d, s17, s53);
  }

  /** How far value `i` of a transformed line is from the inverse cosine transform: less than two, and a 4096th of the
      first and third value, by which two constants are rounded. */
  predicate NearCosine(p: seq<int>, i: nat, v: int)
    requires |p| == 8 && i < 8
  {
    Abs(4096 * v - CosineSum(p, i)) < 2 * 4096 + Abs(p[1]) + Abs(p[3])
  }

  ghost predicate Small(x: int) {
    -0x4000_0000 < x < 0x4000_0000
  }

  lemma ProductsBound(p: seq<int>, b: int, c: int, d: int)
    requires |p| == 8 && Abs(p[1]) + Abs(p[3]) + Abs(p[5]) + Abs(p[7]) <= 200_000 && Products(p, b, c, d)
    ensures -1_000_000 <= b <= 1_000_000 && -1_000_000 <= c <= 1_000_000 && -1_000_000 <= d <= 1_000_000
  {
    OddBounds(p[1], p[3], p[5], p[7]);
    hide Abs;
  }

  lemma OddSmall(p: seq<int>, b: int, c: int, d: int)
    requires |p| == 8 && Abs(p[1]) + Abs(p[3]) + Abs(p[5]) + Abs(p[7]) <= 200_000 && Products(p, b, c, d)
    ensures Small(d + c - b + (p[1] + p[7]) + (p[3] + p[5])) && Small(c - b + (p[1] + p[7]) + (p[3] + p[5]))
    ensures Small(b - (p[1] + p[7]) - (p[3] + p[5])) && Small((p[1] + p[7]) + (p[3] + p[5]))
  {
    OddBounds(p[1], p[3], p[5], p[7]);
    ProductsBound(p, b, c, d);
    hide Abs, Products;
  }

  lemma EvenSmall(p: seq<int>, a: int)
    requires |p| == 8 && Abs(p[2]) + Abs(p[6]) <= 370_000 && Abs(p[0]) + Abs(p[4]) <= 0x3000_0000
    requires 4096 * a <= 5793 * (p[2] - p[6]) < 4096 * a + 4096
    ensures Small(p[0] + p[4] + p[2] + p[6]) && Small(p[0] - p[4] + a - p[2] - p[6])
    ensures Small(p[0] - p[4] - a + p[2] + p[6]) && Small(p[0] + p[4] - p[2] - p[6])
  {
    EvenBounds(p[0], p[2], p[4], p[6]);
    hide Abs;
  }

  lemma Value0(p: seq<int>, a: int, b: int, c: int, d: int)
    requires |p| == 8 && 4096 * a <= 5793 * (p[2] - p[6]) < 4096 * a + 4096 && Products(p, b, c, d)
    ensures NearCosine(p, 0, p[0] + p[4] + p[2] + p[6] + ((p[1] + p[7]) + (p[3] + p[5])))
  {
    CosineSum0(p);
    hide CosineSum;
  }

  lemma Value1(p: seq<int>, a: int, b: int, c: int, d: int)
    requires |p| == 8 && 4096 * a <= 5793 * (p[2] - p[6]) < 4096 * a + 4096 && Products(p, b, c, d)
    ensures NearCosine(p, 1, p[0] - p[4] + a - p[2] - p[6] + (b - (p[1] + p[7]) - (p[3] + p[5])))
  {
    CosineSum1(p);
    hide CosineSum;
  }

  lemma Value2(p: seq<int>, a: int, b: int, c: int, d: int)
    requires |p| == 8 && 4096 * a <= 5793 * (p[2] - p[6]) < 4096 * a + 4096 && Products(p, b, c, d)
    ensures NearCosine(p, 2, p[0] - p[4] - a + p[2] + p[6] + (c - b + (p[1] + p[7]) + (p[3] + p[5])))
  {
    CosineSum2(p);
    hide CosineSum;
  }

  lemma Value3(p: seq<int>, a: int, b: int, c: int, d: int)
    requires |p| == 8 && 4096 * a <= 5793 * (p[2] - p[6]) < 4096 * a + 4096 && Products(p, b, c, d)
    ensures NearCosine(p, 3, p[0] + p[4] - p[2] - p[6] - (d + c - b + (p[1] + p[7]) + (p[3] + p[5])))
  {
    CosineSum3(p);
    hide CosineSum;
  }

  lemma Value4(p: seq<int>, a: int, b: int, c: int, d: int)
    requires |p| == 8 && 4096 * a <= 5793 * (p[2] - p[6]) < 4096 * a + 4096 && Products(p, b, c, d)
    ensures NearCosine(p, 4, p[0] + p[4] - p[2] - p[6] + (d + c - b + (p[1] + p[7]) + (p[3] + p[5])))
  {
    CosineSum4(p);
    hide CosineSum;
  }

  lemma Value5(p: seq<int>, a: int, b: int, c: int, d: int)
    requires |p| == 8 && 4096 * a <= 5793 * (p[2] - p[6]) < 4096 * a + 4096 && Products(p, b, c, d)
    ensures NearCosine(p, 5, p[0] - p[4] - a + p[2] + p[6] - (c - b + (p[1] + p[7]) + (p[3] + p[5])))
  {
    CosineSum5(p);
    hide CosineSum;
  }

  lemma Value6(p: seq<int>, a: int, b: int, c: int, d: int)
    requires |p| == 8 && 4096 * a <= 5793 * (p[2] - p[6]) < 4096 * a + 4096 && Products(p, b, c, d)
    ensures NearCosine(p, 6, p[0] - p[4] + a - p[2] - p[6] - (b - (p[1] + p[7]) - (p[3] + p[5])))
  {
    CosineSum6(p);
    hide CosineSum;
  }

  lemma Value7(p: seq<int>, a: int, b: int, c: int, d: int)
    requires |p| == 8 && 4096 * a <= 5793 * (p[2] - p[6]) < 4096 * a + 4096 && Products(p, b, c, d)
    ensures NearCosine(p, 7, p[0] + p[4] + p[2] + p[6] - ((p[1] + p[7]) + (p[3] + p[5])))
  {
    CosineSum7(p);
    hide CosineSum;
  }

  /** Value `i` of the transform, from the values of its two halves. */
  function Combined(e: seq<int>, o: seq<int>, i: nat): int
    requires |e| == 4 == |o| && i < 8
  {
    match i
    case 0 => e[0] + o[3]
    case 1 => e[1] + o[2]
    case 2 => e[2] + o[1]
    case 3 => e[3] - o[0]
    case 4 => e[3] + o[0]
    case 5 => e[2] - o[1]
    case 6 => e[1] - o[2]
    case 7 => e[0] - o[3]
  }

  lemma ButterflyCombined(w: Word, p: Line, i: nat)
    requires Exact(w) && i < 8
    requires forall k :: 0 <= k < 4 ==> Small(Even(w, p)[k]) && Small(Odd(w, p)[k])
    ensures Butterfly(w, p)[i] == Combined(Even(w, p), Odd(w, p), i)
  {
    hide Exact, Even, Odd, Fit, Add, Sub;
    var e, o := Even(w, p), Odd(w, p);
    match i {
      case 0 => AddIs(w, e[0], o[3]);
      case 1 => AddIs(w, e[1], o[2]);
      case 2 => AddIs(w, e[2], o[1]);
      case 3 => SubIs(w, e[3], o[0]);
      case 4 => AddIs(w, e[3], o[0]);
      case 5 => SubIs(w, e[2], o[1]);
      case 6 => SubIs(w, e[1], o[2]);
      case 7 => SubIs(w, e[0], o[3]);
    }
  }

  lemma CombinedIsCosine(p: seq<int>, a: int, b: int, c: int, d: int, e: seq<int>, o: seq<int>, i: nat)
    requires |p| == 8 && i < 8
    requires 4096 * a <= 5793 * (p[2] - p[6]) < 4096 * a + 4096 && Products(p, b, c, d)
    requires e == [p[0] + p[4] + p[2] + p[6], p[0] - p[4] + a - p[2] - p[6],
                   p[0] - p[4] - a + p[2] + p[6], p[0] + p[4] - p[2] - p[6]]
    requires o == [d + c - b + (p[1] + p[7]) + (p[3] + p[5]), c - b + (p[1] + p[7]) + (p[3] + p[5]),
                   b - (p[1] + p[7]) - (p[3] + p[5]), (p[1] + p[7]) + (p[3] + p[5])]
    ensures NearCosine(p, i, Combined(e, o, i))
  {
    hide Products, NearCosine;
    match i {
      case 0 => Value0(p, a, b, c, d);
      case 1 => Value1(p, a, b, c, d);
      case 2 => Value2(p, a, b, c, d);
      case 3 => Value3(p, a, b, c, d);
      case 4 => Value4(p, a, b, c, d);
      case 5 => Value5(p, a, b, c, d);
      case 6 => Value6(p, a, b, c, d);
      case 7 => Value7(p, a, b, c, d);
    }
  }

  /** The eight-point transform is the inverse cosine transform up to rounding. */
  lemma ButterflyIsCosine(w: Word, p: Line, i: nat)
    requires Exact(w) && Moderate(p) && i < 8
    ensures NearCosine(p, i, Butterfly(w, p)[i])
  {
    hide Exact, Even, Odd, Butterfly, Products, NearCosine;
    var a := EvenIs(w, p);
    var b, c, d := OddIs(w, p);
    EvenSmall(p, a);
    OddSmall(p, b, c, d);
    hide Small, Moderate;
    ButterflyCombined(w, p, i);
    CombinedIsCosine(p, a, b, c, d, Even(w, p), Odd(w, p), i);
  }

  /** The values of a line are each within `d` of those of another, in 1/4096. */
  predicate Within(v: seq<int>, e: seq<int>, d: int)
    requires |v| == 8 == |e|
  {
    && -d <= 4096 * v[0] - e[0] <= d && -d <= 4096 * v[1] - e[1] <= d
    && -d <= 4096 * v[2] - e[2] <= d && -d <= 4096 * v[3] - e[3] <= d
    && -d <= 4096 * v[4] - e[4] <= d && -d <= 4096 * v[5] - e[5] <= d
    && -d <= 4096 * v[6] - e[6] <= d && -d <= 4096 * v[7] - e[7] <= d
  }

  lemma SumNear0(v: seq<int>, e: seq<int>, d: int)
    requires |v| == 8 == |e| && Within(v, e, d)
    ensures -46658 * d <= 4096 * CosineSum(v, 0) - CosineSum(e, 0) <= 46658 * d
  {
    CosineSum0(v);
    CosineSum0(e);
    hide CosineSum;
  }

  lemma SumNear1(v: seq<int>, e: seq<int>, d: int)
    requires |v| == 8 == |e| && Within(v, e, d)
    ensures -46658 * d <= 4096 * CosineSum(v, 1) - CosineSum(e, 1) <= 46658 * d
  {
    CosineSum1(v);
    CosineSum1(e);
    hide CosineSum;
  }

  lemma SumNear2(v: seq<int>, e: seq<int>, d: int)
    requires |v| == 8 == |e| && Within(v, e, d)
    ensures -46658 * d <= 4096 * CosineSum(v, 2) - CosineSum(e, 2) <= 46658 * d
  {
    CosineSum2(v);
    CosineSum2(e);
    hide CosineSum;
  }

  lemma SumNear3(v: seq<int>, e: seq<int>, d: int)
    requires |v| == 8 == |e| && Within(v, e, d)
    ensures -46658 * d <= 4096 * CosineSum(v, 3) - CosineSum(e, 3) <= 46658 * d
  {
    CosineSum3(v);
    CosineSum3(e);
    hide CosineSum;
  }

  lemma SumNear4(v: seq<int>, e: seq<int>, d: int)
    requires |v| == 8 == |e| && Within(v, e, d)
    ensures -46658 * d <= 4096 * CosineSum(v, 4) - CosineSum(e, 4) <= 46658 * d
  {
    CosineSum4(v);
    CosineSum4(e);
    hide CosineSum;
  }

  lemma SumNear5(v: seq<int>, e: seq<int>, d: int)
    requires |v| == 8 == |e| && Within(v, e, d)
    ensures -46658 * d <= 4096 * CosineSum(v, 5) - CosineSum(e, 5) <= 46658 * d
  {
    CosineSum5(v);
    CosineSum5(e);
    hide CosineSum;
  }

  lemma SumNear6(v: seq<int>, e: seq<int>, d: int)
    requires |v| == 8 == |e| && Within(v, e, d)
    ensures -46658 * d <= 4096 * CosineSum(v, 6) - CosineSum(e, 6) <= 46658 * d
  {
    CosineSum6(v);
    CosineSum6(e);
    hide CosineSum;
  }

  lemma SumNear7(v: seq<int>, e: seq<int>, d: int)
    requires |v| == 8 == |e| && Within(v, e, d)
    ensures -46658 * d <= 4096 * CosineSum(v, 7) - CosineSum(e, 7) <= 46658 * d
  {
    CosineSum7(v);
    CosineSum7(e);
    hide CosineSum;
  }

  /** A line near another is transformed to one near the other's transform. */
  lemma CosineSumNear(v: seq<int>, e: seq<int>, d: int, i: nat)
    requires |v| == 8 == |e| && i < 8 && Within(v, e, d)
    ensures -46658 * d <= 4096 * CosineSum(v, i) - CosineSum(e, i) <= 46658 * d
  {
    hide CosineSum, Within;
    match i {
      case 0 => SumNear0(v, e, d);
      case 1 => SumNear1(v, e, d);
      case 2 => SumNear2(v, e, d);
      case 3 => SumNear3(v, e, d);
      case 4 => SumNear4(v, e, d);
      case 5 => SumNear5(v, e, d);
      case 6 => SumNear6(v, e, d);
      case 7 => SumNear7(v, e, d);
    }
  }

  // ---------------------------------------------------------------------------
  // Blocks, their rows and columns
  // ---------------------------------------------------------------------------

  function Entry(b: Block, r: nat, c: nat): Int32
    requires r < 8 && c < 8
  {
    b[8 * r + c]
  }

  function Col(b: Block, c: nat): Line
    requires c < 8
  {
    seq(8, r requires 0 <= r < 8 => Entry(b, r, c))
  }

  function Row(b: Block, r: nat): Line
    requires r < 8
  {
    seq(8, c requires 0 <= c < 8 => Entry(b, r, c))
  }

  function PutCol(b: Block, c: nat, v: Line): Block {
    seq(64, n requires 0 <= n < 64 => if n % 8 == c then v[n / 8] else b[n])
  }

  function PutRow(b: Block, r: nat, v: Line): Block {
    seq(64, n requires 0 <= n < 64 => if n / 8 == r then v[n % 8] else b[n])
  }

  lemma PutEntry(b: Block, i: nat, v: Line, r: nat, c: nat)
    requires i < 8 && r < 8 && c < 8
    ensures Entry(PutCol(b, i, v), r, c) == if c == i then v[r] else Entry(b, r, c)
    ensures Entry(PutRow(b, i, v), r, c) == if r == i then v[c] else Entry(b, r, c)
  {
  }

  lemma SameBlock(a: Block, b: Block)
    requires forall r, c :: 0 <= r < 8 && 0 <= c < 8 ==> Entry(a, r, c) == Entry(b, r, c)
    ensures a == b
  {
    forall n | 0 <= n < 64 ensures a[n] == b[n] {
      assert Entry(a, n / 8, n % 8) == Entry(b, n / 8, n % 8);
    }
  }

  /** The first `n` columns transformed. */
  function Columns(f: Transform, b: Block, n: nat): Block {
    seq(64, m requires 0 <= m < 64 => if m % 8 < n then Apply(f, Col(b, m % 8))[m / 8] else b[m])
  }

  /** The first `n` rows transformed. */
  function Rows(f: Transform, b: Block, n: nat): Block {
    seq(64, m requires 0 <= m < 64 => if m / 8 < n then Apply(f, Row(b, m / 8))[m % 8] else b[m])
  }

  /** The plain inverse transform: all eight columns, then all eight rows. */
  function Plain(f: Transform, b: Block): Block {
    Rows(f, Columns(f, b, 8), 8)
  }

  lemma ColumnsCol(f: Transform, b: Block, n: nat, c: nat)
    requires n <= 8 && c < 8
    ensures Col(Columns(f, b, n), c) == if c < n then Apply(f, Col(b, c)) else Col(b, c)
  {
    forall r | 0 <= r < 8
      ensures Col(Columns(f, b, n), c)[r] == if c < n then Apply(f, Col(b, c))[r] else Col(b, c)[r]
    {
      assert (8 * r + c) % 8 == c && (8 * r + c) / 8 == r;
    }
  }

  lemma RowsRow(f: Transform, b: Block, n: nat, r: nat)
    requires n <= 8 && r < 8
    ensures Row(Rows(f, b, n), r) == if r < n then Apply(f, Row(b, r)) else Row(b, r)
  {
    forall c | 0 <= c < 8
      ensures Row(Rows(f, b, n), r)[c] == if r < n then Apply(f, Row(b, r))[c] else Row(b, r)[c]
    {
      assert (8 * r + c) % 8 == c && (8 * r + c) / 8 == r;
    }
  }

  /** Transforming one column, or one row, more. */
  lemma OneMore(f: Transform, b: Block, n: nat)
    requires n < 8
    ensures Columns(f, b, n + 1) == PutCol(Columns(f, b, n), n, Apply(f, Col(Columns(f, b, n), n)))
    ensures Rows(f, b, n + 1) == PutRow(Rows(f, b, n), n, Apply(f, Row(Rows(f, b, n), n)))
  {
    ColumnsCol(f, b, n, n);
    RowsRow(f, b, n, n);
  }

  /** Row `r` of the block whose columns are transformed exactly, in 1/4096. */
  function Swept(b: Block, r: nat): (e: seq<int>)
    requires r < 8
    ensures |e| == 8
  {
    seq(8, c requires 0 <= c < 8 => CosineSum(Col(b, c), r))
  }

  /** A row of a block transformed by columns, in 1/4096: moderate even when each value is some units off. */
  predicate RowCalm(e: seq<int>, m: nat)
    requires |e| == 8
  {
    && Abs(e[1]) + Abs(e[3]) <= 4096 * m
    && Abs(e[1]) + Abs(e[3]) + Abs(e[5]) + Abs(e[7]) <= 4096 * 199_700
    && Abs(e[2]) + Abs(e[6]) <= 4096 * 369_800 && Abs(e[0]) + Abs(e[4]) <= 4096 * 0x2fff_0000
  }

  /** A block moderate both by columns and, once these are transformed, by rows; its first and third values add up to
      `m` at most. */
  ghost predicate Calm(b: Block, m: nat) {
    && m <= 200_000
    && (forall c :: 0 <= c < 8 ==> Moderate(Col(b, c)) && Abs(Col(b, c)[1]) + Abs(Col(b, c)[3]) <= m)
    && (forall r :: 0 <= r < 8 ==> RowCalm(Swept(b, r), m))
  }

  function Others(p: seq<int>): nat
    requires |p| == 8
  {
    Abs(p[1]) + Abs(p[2]) + Abs(p[3]) + Abs(p[4]) + Abs(p[5]) + Abs(p[6]) + Abs(p[7])
  }

  /** The sizes of a column's coefficients, but for the first of the block. */
  function ColWeight(b: Block, c: nat): nat
    requires c < 8
  {
    (if c == 0 then 0 else Abs(Col(b, c)[0])) + Others(Col(b, c))
  }

  /** The sizes of all coefficients but the first. */
  function Weight(b: Block): nat {
    ColWeight(b, 0) + ColWeight(b, 1) + ColWeight(b, 2) + ColWeight(b, 3)
    + ColWeight(b, 4) + ColWeight(b, 5) + ColWeight(b, 6) + ColWeight(b, 7)
  }

  /** `x` is at most `n` in size. */
  predicate UpTo(x: int, n: int) {
    -n <= x <= n
  }

  lemma SumUpTo(p: seq<int>, n: seq<nat>, i: nat)
    requires |p| == 8 == |n| && i < 8
    requires UpTo(p[0], n[0]) && UpTo(p[1], n[1]) && UpTo(p[2], n[2]) && UpTo(p[3], n[3])
    requires UpTo(p[4], n[4]) && UpTo(p[5], n[5]) && UpTo(p[6], n[6]) && UpTo(p[7], n[7])
    ensures UpTo(CosineSum(p, i), 4096 * n[0] + 20592 * (n[1] + n[2] + n[3] + n[4] + n[5] + n[6] + n[7]))
  {
    hide CosineSum;
    match i {
      case 0 => CosineSum0(p);
      case 1 => CosineSum1(p);
      case 2 => CosineSum2(p);
      case 3 => CosineSum3(p);
      case 4 => CosineSum4(p);
      case 5 => CosineSum5(p);
      case 6 => CosineSum6(p);
      case 7 => CosineSum7(p);
    }
  }

  lemma AbsIs(x: int, n: int)
    ensures UpTo(x, n) <==> Abs(x) <= n
  {
  }

  lemma CosineSumBound(p: seq<int>, i: nat)
    requires |p| == 8 && i < 8
    ensures Abs(CosineSum(p, i)) <= 4096 * Abs(p[0]) + 20592 * Others(p)
  {
    hide CosineSum, Abs, UpTo;
    forall k | 0 <= k < 8 ensures UpTo(p[k], Abs(p[k])) {
      AbsIs(p[k], Abs(p[k]));
    }
    SumUpTo(p, [Abs(p[0]), Abs(p[1]), Abs(p[2]), Abs(p[3]), Abs(p[4]), Abs(p[5]), Abs(p[6]), Abs(p[7])], i);
    AbsIs(CosineSum(p, i), 4096 * Abs(p[0]) + 20592 * Others(p));
  }

  lemma SweptBound(b: Block, r: nat, c: nat)
    requires r < 8 && c < 8
    ensures Abs(Swept(b, r)[c]) <= (if c == 0 then 4096 * Abs(b[0]) else 0) + 20592 * ColWeight(b, c)
  {
    hide CosineSum, Others, Abs;
    CosineSumBound(Col(b, c), r);
  }

  lemma RowOfWeights(e: seq<int>, b0: int, w: seq<nat>, sum: nat)
    requires |e| == 8 == |w| && sum == w[0] + w[1] + w[2] + w[3] + w[4] + w[5] + w[6] + w[7]
    requires Abs(b0) <= 0x2000_0000 && sum <= 33_000 && Abs(e[0]) <= 4096 * Abs(b0) + 20592 * w[0]
    requires forall c :: 0 < c < 8 ==> Abs(e[c]) <= 20592 * w[c]
    ensures RowCalm(e, 6 * sum)
  {
    hide Abs;
    assert Abs(e[1]) <= 20592 * w[1] && Abs(e[2]) <= 20592 * w[2] && Abs(e[3]) <= 20592 * w[3];
    assert Abs(e[4]) <= 20592 * w[4] && Abs(e[5]) <= 20592 * w[5] && Abs(e[6]) <= 20592 * w[6];
    assert Abs(e[7]) <= 20592 * w[7];
  }

  lemma ColOfWeight(b: Block, c: nat)
    requires c < 8 && Abs(b[0]) <= 0x2000_0000 && ColWeight(b, c) <= 33_000
    ensures Moderate(Col(b, c)) && Abs(Col(b, c)[1]) + Abs(Col(b, c)[3]) <= ColWeight(b, c)
  {
    assert c == 0 ==> Col(b, c)[0] == b[0];
    hide Abs, Col;
  }

  lemma ColWeightUpTo(b: Block, c: nat)
    requires c < 8
    ensures ColWeight(b, c) <= Weight(b)
  {
    hide ColWeight;
    match c {
      case 0 =>
      case 1 =>
      case 2 =>
      case 3 =>
      case 4 =>
      case 5 =>
      case 6 =>
      case 7 =>
    }
  }

  lemma SmallRowCalm(b: Block, r: nat)
    requires Abs(b[0]) <= 0x2000_0000 && Weight(b) <= 33_000 && r < 8
    ensures RowCalm(Swept(b, r), 6 * Weight(b))
  {
    hide ColWeight, RowCalm, Swept, Abs;
    var w := [ColWeight(b, 0), ColWeight(b, 1), ColWeight(b, 2), ColWeight(b, 3),
              ColWeight(b, 4), ColWeight(b, 5), ColWeight(b, 6), ColWeight(b, 7)];
    SweptBound(b, r, 0);
    forall c | 0 < c < 8 ensures Abs(Swept(b, r)[c]) <= 20592 * w[c] {
      SweptBound(b, r, c);
      assert w[c] == ColWeight(b, c);
    }
    RowOfWeights(Swept(b, r), b[0], w, Weight(b));
  }

  /** A block is calm if its first coefficient is at most 2^29 and the others are together at most 33000. */
  lemma SmallIsCalm(b: Block)
    requires Abs(b[0]) <= 0x2000_0000 && Weight(b) <= 33_000
    ensures Calm(b, 6 * Weight(b))
  {
    hide Weight, ColWeight, Moderate, RowCalm, Swept, Col, Abs;
    forall c | 0 <= c < 8
      ensures Moderate(Col(b, c)) && Abs(Col(b, c)[1]) + Abs(Col(b, c)[3]) <= 6 * Weight(b)
    {
      ColWeightUpTo(b, c);
      ColOfWeight(b, c);
    }
    forall r | 0 <= r < 8 ensures RowCalm(Swept(b, r), 6 * Weight(b)) {
      SmallRowCalm(b, r);
    }
  }

  /** How far a transformed value is from the two-dimensional inverse cosine transform of the block: at most 25, and a
      330th of `m`. */
  predicate NearCosines(b: Block, m: nat, r: nat, c: nat, v: int)
    requires r < 8 && c < 8
  {
    Abs(4096 * 4096 * v - CosineSum(Swept(b, r), c)) <= 415_793_152 + 50_756 * m
  }

  lemma AbsNear(x: int, y: int, d: int)
    requires -d <= 4096 * x - y <= d
    ensures 4096 * Abs(x) <= Abs(y) + d
  {
  }

  lemma RowModerate(v: seq<int>, e: seq<int>, m: nat)
    requires |v| == 8 == |e| && RowCalm(e, m) && m <= 200_000 && Within(v, e, 8192 + m)
    ensures Moderate(v) && 4096 * (Abs(v[1]) + Abs(v[3])) <= 4096 * m + 2 * (8192 + m)
  {
    hide Abs;
    AbsNear(v[0], e[0], 8192 + m);
    AbsNear(v[1], e[1], 8192 + m);
    AbsNear(v[2], e[2], 8192 + m);
    AbsNear(v[3], e[3], 8192 + m);
    AbsNear(v[4], e[4], 8192 + m);
    AbsNear(v[5], e[5], 8192 + m);
    AbsNear(v[6], e[6], 8192 + m);
    AbsNear(v[7], e[7], 8192 + m);
    hide Within;
  }

  lemma EntryOfCol(b: Block, r: nat, c: nat)
    requires r < 8 && c < 8
    ensures Entry(b, r, c) == Col(b, c)[r] == Row(b, r)[c]
  {
  }

  /** The column pass brings each value near the exact one. */
  lemma SweptAt(w: Word, b: Block, m: nat, r: nat, k: nat)
    requires Exact(w) && Calm(b, m) && r < 8 && k < 8
    ensures -8192 - m <= 4096 * Entry(Columns(Transform8(w), b, 8), r, k) - Swept(b, r)[k] <= 8192 + m
  {
    hide Exact, Butterfly, Moderate, CosineSum, RowCalm, Columns, Entry, Col;
    ColumnsCol(Transform8(w), b, 8, k);
    ButterflyIsCosine(w, Col(b, k), r);
    EntryOfCol(Columns(Transform8(w), b, 8), r, k);
  }

  lemma AllWithin(v: seq<int>, e: seq<int>, d: int)
    requires |v| == 8 == |e| && forall k :: 0 <= k < 8 ==> -d <= 4096 * v[k] - e[k] <= d
    ensures Within(v, e, d)
  {
  }

  /** The rows after the column pass are near those of the exact one. */
  lemma SweptNear(w: Word, b: Block, m: nat, r: nat)
    requires Exact(w) && Calm(b, m) && r < 8
    ensures Within(Row(Columns(Transform8(w), b, 8), r), Swept(b, r), 8192 + m)
  {
    var d := Columns(Transform8(w), b, 8);
    var v, e := Row(d, r), Swept(b, r);
    hide Calm, Exact, Columns, Entry, Row, Col, Transform8, CosineSum, Swept, Within, RowCalm, Moderate;
    forall k | 0 <= k < 8 ensures -8192 - m <= 4096 * v[k] - e[k] <= 8192 + m {
      EntryOfCol(d, r, k);
      SweptAt(w, b, m, r, k);
    }
    AllWithin(v, e, 8192 + m);
  }

  lemma NearTwice(v: seq<int>, e: seq<int>, m: nat, c: nat, x: int)
    requires |v| == 8 == |e| && c < 8 && NearCosine(v, c, x)
    requires 4096 * (Abs(v[1]) + Abs(v[3])) <= 4096 * m + 2 * (8192 + m)
    requires -46658 * (8192 + m) <= 4096 * CosineSum(v, c) - CosineSum(e, c) <= 46658 * (8192 + m)
    ensures Abs(4096 * 4096 * x - CosineSum(e, c)) <= 415_793_152 + 50_756 * m
  {
    hide CosineSum;
  }

  /** The row pass on values near the exact ones. */
  lemma RowIsCosine(w: Word, v: Line, e: seq<int>, m: nat, c: nat)
    requires Exact(w) && |e| == 8 && RowCalm(e, m) && m <= 200_000 && Within(v, e, 8192 + m) && c < 8
    ensures Abs(4096 * 4096 * Butterfly(w, v)[c] - CosineSum(e, c)) <= 415_793_152 + 50_756 * m
  {
    hide Exact, RowCalm, Butterfly, Moderate, CosineSum, NearCosine, Within, Abs;
    RowModerate(v, e, m);
    ButterflyIsCosine(w, v, c);
    CosineSumNear(v, e, 8192 + m, c);
    NearTwice(v, e, m, c, Butterfly(w, v)[c]);
  }

  lemma CalmRow(b: Block, m: nat, r: nat)
    requires Calm(b, m) && r < 8
    ensures m <= 200_000 && RowCalm(Swept(b, r), m)
  {
  }

  lemma PlainEntry(f: Transform, b: Block, r: nat, c: nat)
    requires r < 8 && c < 8
    ensures Entry(Plain(f, b), r, c) == Apply(f, Row(Columns(f, b, 8), r))[c]
  {
    hide Entry, Row, Columns, Rows;
    RowsRow(f, Columns(f, b, 8), 8, r);
    EntryOfCol(Plain(f, b), r, c);
  }

  /** The plain transform is the two-dimensional inverse cosine transform up to rounding. */
  lemma PlainIsCosines(w: Word, b: Block, m: nat, r: nat, c: nat)
    requires Exact(w) && Calm(b, m) && r < 8 && c < 8
    ensures NearCosines(b, m, r, c, Entry(Plain(Transform8(w), b), r, c))
  {
    hide Exact, Calm, RowCalm, Butterfly, CosineSum, Columns, Row, Entry, Within, Abs, Swept, Plain;
    CalmRow(b, m, r);
    PlainEntry(Transform8(w), b, r, c);
    SweptNear(w, b, m, r);
    RowIsCosine(w, Row(Columns(Transform8(w), b, 8), r), Swept(b, r), m, c);
  }

  // ---------------------------------------------------------------------------
  // The mask
  // ---------------------------------------------------------------------------

  /** `used_col`: -1, or the set of its bits. */
  datatype Used = DcOnly | Mask(cols: set<nat>)

  /** The mask tells the truth: -1 only if no coefficient but the first is non-zero; otherwise a column with a
      non-zero coefficient in rows 1 to 7 has its bit. */
  ghost predicate Sound(b: Block, used: Used) {
    match used
    case DcOnly => forall n :: 0 < n < 64 ==> b[n] == 0
    case Mask(cols) => forall r, c :: 0 < r < 8 && 0 <= c < 8 && Entry(b, r, c) != 0 ==> c in cols
  }

  /** A column outside a sound mask has at most its first coefficient. */
  lemma OutsideMask(b: Block, cols: set<nat>, c: nat)
    requires Sound(b, Mask(cols)) && c < 8 && c !in cols
    ensures Col(b, c) == Impulse(b[c])
  {
    assert Entry(b, 0, c) == b[c];
    forall r | 0 < r < 8 ensures Col(b, c)[r] == 0 {
      assert Entry(b, r, c) == 0;
    }
  }

  /** The columns the column pass leaves non-zero: those of the mask, and those with a first coefficient. */
  function Touched(b: Block, cols: set<nat>, n: nat): set<nat>
    requires n <= 8
  {
    cols + set c | 0 <= c < n && b[c] != 0
  }

  /** One step of the masked column pass is one step of the plain one. */
  lemma ColumnStep(f: Transform, b: Block, cols: set<nat>, n: nat)
    requires Flat(f) && Sound(b, Mask(cols)) && n < 8
    ensures Columns(f, b, n)[n] == b[n]
    ensures n !in cols ==>
              Columns(f, b, n + 1) ==
              if b[n] != 0 then PutCol(Columns(f, b, n), n, Constant(b[n])) else Columns(f, b, n)
    ensures Touched(b, cols, n + 1) == Touched(b, cols, n) + if b[n] != 0 then {n} else {}
  {
    var d := Columns(f, b, n);
    OneMore(f, b, n);
    ColumnsCol(f, b, n, n);
    assert Entry(d, 0, n) == Col(d, n)[0] == Col(b, n)[0] == Entry(b, 0, n);
    if n !in cols {
      OutsideMask(b, cols, n);
      if b[n] == 0 {
        forall r, c | 0 <= r < 8 && 0 <= c < 8
          ensures Entry(PutCol(d, n, Constant(0)), r, c) == Entry(d, r, c)
        {
          PutEntry(d, n, Constant(0), r, c);
          assert c == n ==> Entry(d, r, c) == Col(d, n)[r];
        }
        SameBlock(PutCol(d, n, Constant(0)), d);
      }
    }
  }

  /** Every row has at most its first value. */
  ghost predicate FirstColumnOnly(b: Block) {
    forall r :: 0 <= r < 8 ==> Row(b, r) == Impulse(Entry(b, r, 0))
  }

  /** If only the first column is touched, the column pass leaves the others zero. */
  lemma RowsAreImpulses(f: Transform, b: Block, cols: set<nat>)
    requires Flat(f) && Sound(b, Mask(cols)) && Touched(b, cols, 8) == {0}
    ensures FirstColumnOnly(Columns(f, b, 8))
  {
    var d := Columns(f, b, 8);
    forall r, c | 0 <= r < 8 && 0 < c < 8 ensures Row(d, r)[c] == 0 {
      assert c !in Touched(b, cols, 8);
      OutsideMask(b, cols, c);
      ColumnsCol(f, b, 8, c);
      assert Row(d, r)[c] == Col(d, c)[r];
    }
  }

  /** A block with its first coefficient only becomes constant. */
  lemma DcOnlyIsConstant(f: Transform, b: Block)
    requires Flat(f) && Sound(b, DcOnly)
    ensures Plain(f, b) == seq(64, _ => b[0])
  {
    var d := Columns(f, b, 8);
    forall r, c | 0 <= r < 8 && 0 <= c < 8 ensures Entry(d, r, c) == if c == 0 then b[0] else 0 {
      ColumnsCol(f, b, 8, c);
      OutsideMask(b, {}, c);
      assert Col(d, c)[r] == Entry(d, r, c);
    }
    forall r, c | 0 <= r < 8 && 0 <= c < 8 ensures Entry(Plain(f, b), r, c) == b[0] {
      RowsRow(f, d, 8, r);
      assert Row(d, r) == Impulse(b[0]);
      assert Row(Plain(f, b), r)[c] == Entry(Plain(f, b), r, c);
    }
    SameBlock(Plain(f, b), seq(64, _ => b[0]));
  }

  // ---------------------------------------------------------------------------
  // The transform in place
  // ---------------------------------------------------------------------------

  /** Column `c` of the block at `at` overwritten: the stores of the column pass, and `fillcol`. */
  method StoreCol(block: array<Int32>, at: nat, c: nat, v: Line)
    requires at + 64 <= block.Length && c < 8
    modifies block
    ensures block[at..at + 64] == PutCol(old(block[at..at + 64]), c, v)
    ensures forall n :: 0 <= n < block.Length && !(at <= n < at + 64) ==> block[n] == old(block[n])
  {
    ghost var b := block[at..at + 64];
    for k := 0 to 8
      invariant forall n :: 0 <= n < 64 ==> block[at + n] == if n % 8 == c && n / 8 < k then v[n / 8] else b[n]
      invariant forall n :: 0 <= n < block.Length && !(at <= n < at + 64) ==> block[n] == old(block[n])
    {
      block[at + c + 8 * k] := v[k];
    }
  }

  method StoreRow(block: array<Int32>, at: nat, r: nat, v: Line)
    requires at + 64 <= block.Length && r < 8
    modifies block
    ensures block[at..at + 64] == PutRow(old(block[at..at + 64]), r, v)
    ensures forall n :: 0 <= n < block.Length && !(at <= n < at + 64) ==> block[n] == old(block[n])
  {
    ghost var b := block[at..at + 64];
    for k := 0 to 8
      invariant forall n :: 0 <= n < 64 ==> block[at + n] == if n / 8 == r && n % 8 < k then v[n % 8] else b[n]
      invariant forall n :: 0 <= n < block.Length && !(at <= n < at + 64) ==> block[n] == old(block[n])
    {
      block[at + 8 * r + k] := v[k];
    }
  }

  /** The column pass (src/mdec.cpp:97-161): columns outside the mask are filled or skipped, and the mask grows by
      the ones filled. */
  method ColumnPass(block: array<Int32>, at: nat, cols: set<nat>, f: Transform) returns (usedCol: set<nat>)
    requires Flat(f) && at + 64 <= block.Length && Sound(block[at..at + 64], Mask(cols))
    modifies block
    ensures block[at..at + 64] == Columns(f, old(block[at..at + 64]), 8)
    ensures usedCol == Touched(old(block[at..at + 64]), cols, 8)
    ensures forall n :: 0 <= n < block.Length && !(at <= n < at + 64) ==> block[n] == old(block[n])
  {
    ghost var b := block[at..at + 64];
    usedCol := cols;
    for i := 0 to 8
      invariant block[at..at + 64] == Columns(f, b, i) && usedCol == Touched(b, cols, i)
      invariant forall n :: 0 <= n < block.Length && !(at <= n < at + 64) ==> block[n] == old(block[n])
    {
      ColumnStep(f, b, cols, i);
      OneMore(f, b, i);
      assert block[at + i] == block[at..at + 64][i];
      if i !in usedCol {
        if block[at + i] != 0 {
          StoreCol(block, at, i, Constant(block[at + i]));
          usedCol := usedCol + {i};
        }
      } else {
        StoreCol(block, at, i, Apply(f, Col(block[at..at + 64], i)));
      }
    }
  }

  /** The row pass (src/mdec.cpp:163-200): with only the first column used, every row is filled. */
  method RowPass(block: array<Int32>, at: nat, usedCol: set<nat>, f: Transform)
    requires Flat(f) && at + 64 <= block.Length
    requires usedCol == {0} ==> FirstColumnOnly(block[at..at + 64])
    modifies block
    ensures block[at..at + 64] == Rows(f, old(block[at..at + 64]), 8)
    ensures forall n :: 0 <= n < block.Length && !(at <= n < at + 64) ==> block[n] == old(block[n])
  {
    ghost var b := block[at..at + 64];
    for i := 0 to 8
      invariant block[at..at + 64] == Rows(f, b, i)
      invariant forall n :: 0 <= n < block.Length && !(at <= n < at + 64) ==> block[n] == old(block[n])
    {
      ghost var d := Rows(f, b, i);
      OneMore(f, b, i);
      RowsRow(f, b, i, i);
      assert block[at + 8 * i] == Entry(d, i, 0) == Row(d, i)[0];
      if usedCol == {0} {
        StoreRow(block, at, i, Constant(block[at + 8 * i]));
      } else {
        StoreRow(block, at, i, Apply(f, Row(block[at..at + 64], i)));
      }
    }
  }

  /** `idct` (src/mdec.cpp:83-201): with a sound mask, the short cuts change nothing. */
  method Idct(block: array<Int32>, at: nat, used: Used, f: Transform)
    requires Flat(f) && at + 64 <= block.Length && Sound(block[at..at + 64], used)
    modifies block
    ensures block[at..at + 64] == Plain(f, old(block[at..at + 64]))
    ensures forall n :: 0 <= n < block.Length && !(at <= n < at + 64) ==> block[n] == old(block[n])
  {
    ghost var b := block[at..at + 64];
    match used {
      case DcOnly =>
        DcOnlyIsConstant(f, b);
        var v := block[at];
        for i := 0 to 64
          invariant forall n :: at <= n < at + i ==> block[n] == v
          invariant forall n :: 0 <= n < block.Length && !(at <= n < at + 64) ==> block[n] == old(block[n])
        {
          block[at + i] := v;
        }
      case Mask(cols) =>
        var usedCol := ColumnPass(block, at, cols, f);
        if usedCol == {0} {
          RowsAreImpulses(f, b, cols);
        }
        RowPass(block, at, usedCol, f);
    }
  }

  // ---------------------------------------------------------------------------
  // Run-length codes
  // ---------------------------------------------------------------------------

  const MDEC_END_OF_DATA: nat := 0xfe00

  function RleRun(code: nat): nat {
    code / 1024
  }

  function RleVal(code: nat): int {
    if code % 1024 < 512 then code % 1024 else code % 1024 - 1024
  }

  /** A place in a block. */
  type Place = n: nat | n < 64

  /** The zigzag order (src/mdec.cpp:234-243), by rows of the table. */
  function ZscanRow(i: nat): (t: seq<Place>)
    requires i < 8
    ensures |t| == 8
  {
    match i
    case 0 => [0, 1, 8, 16, 9, 2, 3, 10]
    case 1 => [17, 24, 32, 25, 18, 11, 4, 5]
    case 2 => [12, 19, 26, 33, 40, 48, 41, 34]
    case 3 => [27, 20, 13, 6, 7, 14, 21, 28]
    case 4 => [35, 42, 49, 56, 57, 50, 43, 36]
    case 5 => [29, 22, 15, 23, 30, 37, 44, 51]
    case 6 => [58, 59, 52, 45, 38, 31, 39, 46]
    case 7 => [53, 60, 61, 54, 47, 55, 62, 63]
  }

  function Zscan(k: nat): Place
    requires k < 64
  {
    ZscanRow(k / 8)[k % 8]
  }

  /** `m` comes after `n` in a zigzag through rows and columns: up the rising diagonals and down the falling ones,
      and along the edge where one ends. */
  predicate Zigzag(n: nat, m: nat) {
    var r, c := n / 8, n % 8;
    if (r + c) % 2 == 0 then m == if c == 7 then n + 8 else if r == 0 then n + 1 else n - 7
    else m == if r == 7 then n + 1 else if c == 0 then n + 8 else n + 7
  }

  lemma ZigzagUpper(i: nat)
    requires i < 4
    ensures var t := ZscanRow(i);
            && Zigzag(t[0], t[1]) && Zigzag(t[1], t[2]) && Zigzag(t[2], t[3]) && Zigzag(t[3], t[4])
            && Zigzag(t[4], t[5]) && Zigzag(t[5], t[6]) && Zigzag(t[6], t[7])
            && (i < 7 ==> Zigzag(t[7], ZscanRow(i + 1)[0]))
  {
  }

  lemma ZigzagLower(i: nat)
    requires 4 <= i < 8
    ensures var t := ZscanRow(i);
            && Zigzag(t[0], t[1]) && Zigzag(t[1], t[2]) && Zigzag(t[2], t[3]) && Zigzag(t[3], t[4])
            && Zigzag(t[4], t[5]) && Zigzag(t[5], t[6]) && Zigzag(t[6], t[7])
            && (i < 7 ==> Zigzag(t[7], ZscanRow(i + 1)[0]))
  {
  }

  lemma ZigzagAt(i: nat, j: nat)
    requires i < 8 && j < 8
    ensures j < 7 ==> Zigzag(ZscanRow(i)[j], ZscanRow(i)[j + 1])
    ensures j == 7 && i < 7 ==> Zigzag(ZscanRow(i)[7], ZscanRow(i + 1)[0])
  {
    hide ZscanRow, Zigzag;
    if i < 4 { ZigzagUpper(i); } else { ZigzagLower(i); }
  }

  /** The order is the zigzag from the first entry on. */
  lemma ZscanIsZigzag(k: nat)
    requires k < 64
    ensures if k == 0 then Zscan(k) == 0 else Zigzag(Zscan(k - 1), Zscan(k))
  {
    assert ZscanRow(0)[0] == 0;
    hide ZscanRow, Zigzag;
    if k > 0 {
      var i, j := (k - 1) / 8, (k - 1) % 8;
      ZigzagAt(i, j);
      assert if j < 7 then k / 8 == i && k % 8 == j + 1 else k / 8 == i + 1 && k % 8 == 0;
    }
  }

  /** Where the zigzag order reaches entry `n`. */
  function ZscanInverse(n: nat): nat
    requires n < 64
  {
    var row := match n / 8
      case 0 => [0, 1, 5, 6, 14, 15, 27, 28]
      case 1 => [2, 4, 7, 13, 16, 26, 29, 42]
      case 2 => [3, 8, 12, 17, 25, 30, 41, 43]
      case 3 => [9, 11, 18, 24, 31, 40, 44, 53]
      case 4 => [10, 19, 23, 32, 39, 45, 52, 54]
      case 5 => [20, 22, 33, 38, 46, 51, 55, 60]
      case 6 => [21, 34, 37, 47, 50, 56, 59, 61]
      case 7 => [35, 36, 48, 49, 57, 58, 62, 63];
    row[n % 8]
  }

  lemma Inverse0(i: nat)
    requires 0 <= i < 2
    ensures var t := ZscanRow(i);
            && ZscanInverse(t[0]) == 8 * i && ZscanInverse(t[1]) == 8 * i + 1
            && ZscanInverse(t[2]) == 8 * i + 2 && ZscanInverse(t[3]) == 8 * i + 3
            && ZscanInverse(t[4]) == 8 * i + 4 && ZscanInverse(t[5]) == 8 * i + 5
            && ZscanInverse(t[6]) == 8 * i + 6 && ZscanInverse(t[7]) == 8 * i + 7
  {
  }

  lemma Inverse1(i: nat)
    requires 2 <= i < 4
    ensures var t := ZscanRow(i);
            && ZscanInverse(t[0]) == 8 * i && ZscanInverse(t[1]) == 8 * i + 1
            && ZscanInverse(t[2]) == 8 * i + 2 && ZscanInverse(t[3]) == 8 * i + 3
            && ZscanInverse(t[4]) == 8 * i + 4 && ZscanInverse(t[5]) == 8 * i + 5
            && ZscanInverse(t[6]) == 8 * i + 6 && ZscanInverse(t[7]) == 8 * i + 7
  {
  }

  lemma Inverse2(i: nat)
    requires 4 <= i < 6
    ensures var t := ZscanRow(i);
            && ZscanInverse(t[0]) == 8 * i && ZscanInverse(t[1]) == 8 * i + 1
            && ZscanInverse(t[2]) == 8 * i + 2 && ZscanInverse(t[3]) == 8 * i + 3
            && ZscanInverse(t[4]) == 8 * i + 4 && ZscanInverse(t[5]) == 8 * i + 5
            && ZscanInverse(t[6]) == 8 * i + 6 && ZscanInverse(t[7]) == 8 * i + 7
  {
  }

  lemma Inverse3(i: nat)
    requires 6 <= i < 8
    ensures var t := ZscanRow(i);
            && ZscanInverse(t[0]) == 8 * i && ZscanInverse(t[1]) == 8 * i + 1
            && ZscanInverse(t[2]) == 8 * i + 2 && ZscanInverse(t[3]) == 8 * i + 3
            && ZscanInverse(t[4]) == 8 * i + 4 && ZscanInverse(t[5]) == 8 * i + 5
            && ZscanInverse(t[6]) == 8 * i + 6 && ZscanInverse(t[7]) == 8 * i + 7
  {
  }

  lemma InverseAt(k: nat)
    requires k < 64
    ensures ZscanInverse(Zscan(k)) == k
  {
    hide ZscanRow, ZscanInverse;
    match k / 16 {
      case 0 => Inverse0(k / 8);
      case 1 => Inverse1(k / 8);
      case 2 => Inverse2(k / 8);
      case 3 => Inverse3(k / 8);
    }
  }

  /** The zigzag order visits distinct entries. */
  lemma ZscanDistinct(k: nat, l: nat)
    requires k < 64 && l < 64 && Zscan(k) == Zscan(l)
    ensures k == l
  {
    hide Zscan, ZscanInverse;
    InverseAt(k);
    InverseAt(l);
  }

  /** A coefficient and its place in the zigzag order. */
  datatype Coef = Coef(k: nat, val: Int32)

  /** `SCALER(RLE_VAL(rl) * iqtab[k] * q_scale, AAN_EXTRA)` (src/mdec.cpp:290). */
  function Scaled(w: Word, code: nat, iq: Int32, qScale: nat): Int32 {
    (Fit(w, Fit(w, Fit(w, RleVal(code) * iq) * qScale) + 2048) as int) / 4096
  }

  /** `SCALER(iqtab[0] * RLE_VAL(rl), AAN_EXTRA - 3)` (src/mdec.cpp:278). */
  function ScaledDc(w: Word, code: nat, iq: Int32): Int32 {
    (Fit(w, Fit(w, iq * RleVal(code)) + 256) as int) / 512
  }

  /** A code is a run and a signed value of ten bits. */
  lemma CodeIs(code: nat)
    ensures code == 1024 * RleRun(code) + if RleVal(code) < 0 then RleVal(code) + 1024 else RleVal(code)
    ensures -512 <= RleVal(code) < 512
  {
  }

  /** `v` is the nearest to `x / n`. */
  predicate Nearest(v: int, x: int, n: nat) {
    2 * Abs(n * v - x) <= n
  }

  /** A coefficient is the product of its value, its entry in the table and the scale of the block, rounded to whole
      numbers, unless a product overflows. */
  lemma ScaledIs(w: Word, code: nat, iq: Int32, qScale: nat)
    requires Exact(w) && InWord(RleVal(code) * iq) && InWord(RleVal(code) * iq * qScale)
    requires InWord(RleVal(code) * iq * qScale + 2048)
    ensures Nearest(Scaled(w, code, iq, qScale), RleVal(code) * iq * qScale, 4096)
  {
    hide Exact, Fit, RleVal;
    FitIs(w, RleVal(code) * iq);
    FitIs(w, RleVal(code) * iq * qScale);
    FitIs(w, RleVal(code) * iq * qScale + 2048);
  }

  lemma ScaledDcIs(w: Word, code: nat, iq: Int32)
    requires Exact(w) && InWord(iq * RleVal(code)) && InWord(iq * RleVal(code) + 256)
    ensures Nearest(ScaledDc(w, code, iq), iq * RleVal(code), 512)
  {
    hide Exact, Fit, RleVal;
    FitIs(w, iq * RleVal(code));
    FitIs(w, iq * RleVal(code) + 256);
  }

  /** The codes at `pos` of a block, after place `k`, end before the stream does. */
  predicate CodesIn(rl: seq<nat>, pos: nat, k: nat)
    requires k < 64
    decreases 64 - k
  {
    && pos < |rl|
    && var l := k + RleRun(rl[pos]) + 1;
       rl[pos] == MDEC_END_OF_DATA || l > 63 || CodesIn(rl, pos + 1, l)
  }

  /** The stream holds a whole block at `pos`. */
  predicate BlockIn(rl: seq<nat>, pos: nat) {
    pos < |rl| && CodesIn(rl, pos + 1, 0)
  }

  /** The coefficients that the codes at `pos` stand for, after the one at place `k`: each code skips as many
      places as its run says; the end-of-data code, or a run past the end of the block, ends them. */
  function Coefs(rl: seq<nat>, pos: nat, k: nat, iq: seq<Int32>, qScale: nat, w: Word): seq<Coef>
    requires k < 64 == |iq| && CodesIn(rl, pos, k)
    decreases 64 - k
  {
    var l := k + RleRun(rl[pos]) + 1;
    if rl[pos] == MDEC_END_OF_DATA || l > 63 then []
    else [Coef(l, Scaled(w, rl[pos], iq[l], qScale))] + Coefs(rl, pos + 1, l, iq, qScale, w)
  }

  /** The position after the code that ends the block. */
  function CoefsEnd(rl: seq<nat>, pos: nat, k: nat): (next: nat)
    requires k < 64 && CodesIn(rl, pos, k)
    ensures pos < next <= |rl|
    decreases 64 - k
  {
    var l := k + RleRun(rl[pos]) + 1;
    if rl[pos] == MDEC_END_OF_DATA || l > 63 then pos + 1 else CoefsEnd(rl, pos + 1, l)
  }

  /** Places from 1 to 63, in ascending order. */
  ghost predicate Ascending(cs: seq<Coef>, k: nat) {
    && (forall i :: 0 <= i < |cs| ==> k < cs[i].k < 64)
    && (forall i, j :: 0 <= i < j < |cs| ==> cs[i].k < cs[j].k)
  }

  lemma AscendingAfter(c: Coef, cs: seq<Coef>, k: nat)
    requires k < c.k < 64 && Ascending(cs, c.k)
    ensures Ascending([c] + cs, k)
  {
  }

  lemma {:induction false} CoefsAscend(rl: seq<nat>, pos: nat, k: nat, iq: seq<Int32>, qScale: nat, w: Word)
    requires k < 64 == |iq| && CodesIn(rl, pos, k)
    ensures Ascending(Coefs(rl, pos, k, iq, qScale, w), k)
    decreases 64 - k
  {
    var l := k + RleRun(rl[pos]) + 1;
    hide Scaled, RleRun;
    if rl[pos] != MDEC_END_OF_DATA && l <= 63 {
      CoefsAscend(rl, pos + 1, l, iq, qScale, w);
      AscendingAfter(Coef(l, Scaled(w, rl[pos], iq[l], qScale)), Coefs(rl, pos + 1, l, iq, qScale, w), k);
    }
  }

  /** Coefficients stored at their zigzag places. */
  function Scatter(b: Block, cs: seq<Coef>): Block
    requires forall i :: 0 <= i < |cs| ==> cs[i].k < 64
    decreases |cs|
  {
    if cs == [] then b else Scatter(b[Zscan(cs[0].k) := cs[0].val], cs[1..])
  }

  /** No coefficient overwrites another: each one is found at its place, and every other entry is as it was. */
  lemma {:induction false} ScatterReadsBack(b: Block, cs: seq<Coef>, k: nat)
    requires Ascending(cs, k)
    ensures forall i :: 0 <= i < |cs| ==> Scatter(b, cs)[Zscan(cs[i].k)] == cs[i].val
    ensures forall n :: 0 <= n < 64 && (forall i :: 0 <= i < |cs| ==> Zscan(cs[i].k) != n) ==> Scatter(b, cs)[n] == b[n]
    decreases |cs|
  {
    if cs != [] {
      var b1, t := b[Zscan(cs[0].k) := cs[0].val], cs[1..];
      assert forall i :: 0 <= i < |t| ==> t[i] == cs[i + 1];
      ScatterReadsBack(b1, t, cs[0].k);
      forall i | 0 <= i < |t| ensures Zscan(t[i].k) != Zscan(cs[0].k) {
        if Zscan(t[i].k) == Zscan(cs[0].k) { ZscanDistinct(t[i].k, cs[0].k); }
      }
      forall i | 0 <= i < |cs| ensures Scatter(b, cs)[Zscan(cs[i].k)] == cs[i].val {
        assert i > 0 ==> cs[i] == t[i - 1];
      }
    }
  }

  /** Storing a coefficient keeps the mask sound if its column is marked. */
  lemma StoreSound(b: Block, cols: set<nat>, n: nat, v: Int32)
    requires Sound(b, Mask(cols)) && n < 64
    ensures Sound(b[n := v], Mask(if n > 7 then cols + {n % 8} else cols))
  {
    var b1, cols1 := b[n := v], if n > 7 then cols + {n % 8} else cols;
    forall r, c | 0 < r < 8 && 0 <= c < 8 && Entry(b1, r, c) != 0 ensures c in cols1 {
      if 8 * r + c != n { assert Entry(b, r, c) != 0; }
    }
  }

  function Zeros(): Block {
    seq(64, _ => 0)
  }

  /** The block the codes at `pos` stand for (src/mdec.cpp:276-300). */
  function Coefficients(rl: seq<nat>, pos: nat, iq: seq<Int32>, w: Word): Block
    requires |iq| == 64 && BlockIn(rl, pos)
  {
    CoefsAscend(rl, pos + 1, 0, iq, RleRun(rl[pos]), w);
    Scatter(Zeros()[0 := ScaledDc(w, rl[pos], iq[0])], Coefs(rl, pos + 1, 0, iq, RleRun(rl[pos]), w))
  }

  /** Between codes: storing the coefficients still to come completes the block, and the mask is sound so far. */
  ghost predicate Reading(b: Block, cols: set<nat>, rl: seq<nat>, next: nat, k: nat, iq: seq<Int32>, qScale: nat,
                          w: Word, all: Block, end: nat) {
    && |iq| == 64 && k < 64 && CodesIn(rl, next, k)
    && Ascending(Coefs(rl, next, k, iq, qScale, w), k)
    && Scatter(b, Coefs(rl, next, k, iq, qScale, w)) == all
    && CoefsEnd(rl, next, k) == end
    && Sound(b, Mask(cols)) && (k == 0 ==> Sound(b, DcOnly))
  }

  lemma ReadStep(b: Block, cols: set<nat>, rl: seq<nat>, next: nat, k: nat, iq: seq<Int32>, qScale: nat, w: Word,
                 all: Block, end: nat, l: nat, b': Block, cols': set<nat>)
    requires Reading(b, cols, rl, next, k, iq, qScale, w, all, end)
    requires rl[next] != MDEC_END_OF_DATA && l == k + RleRun(rl[next]) + 1 && l <= 63
    requires b' == b[Zscan(l) := Scaled(w, rl[next], iq[l], qScale)]
    requires cols' == if Zscan(l) > 7 then cols + {Zscan(l) % 8} else cols
    ensures Reading(b', cols', rl, next + 1, l, iq, qScale, w, all, end)
  {
    var cs := Coefs(rl, next, k, iq, qScale, w);
    assert cs[1..] == Coefs(rl, next + 1, l, iq, qScale, w);
    CoefsAscend(rl, next + 1, l, iq, qScale, w);
    StoreSound(b, cols, Zscan(l), Scaled(w, rl[next], iq[l], qScale));
  }

  /** Entry `n` of the block at `at` overwritten. */
  method Store(blk: array<Int32>, at: nat, n: nat, v: Int32)
    requires at + 64 <= blk.Length && n < 64
    modifies blk
    ensures blk[at..at + 64] == old(blk[at..at + 64])[n := v]
    ensures forall n :: 0 <= n < blk.Length && !(at <= n < at + 64) ==> blk[n] == old(blk[n])
  {
    blk[at + n] := v;
  }

  /** One block of `rl2blk`, up to its transform (src/mdec.cpp:276-300): it stores the coefficients and keeps a
      sound mask. */
  method DecodeBlock(blk: array<Int32>, at: nat, rl: seq<nat>, pos: nat, iq: seq<Int32>, w: Word)
    returns (next: nat, used: Used)
    requires at + 64 <= blk.Length && |iq| == 64 && BlockIn(rl, pos)
    requires blk[at..at + 64] == Zeros()
    modifies blk
    ensures blk[at..at + 64] == Coefficients(rl, pos, iq, w) && Sound(blk[at..at + 64], used)
    ensures next == CoefsEnd(rl, pos + 1, 0)
    ensures forall n :: 0 <= n < blk.Length && !(at <= n < at + 64) ==> blk[n] == old(blk[n])
  {
    var qScale := RleRun(rl[pos]);
    Store(blk, at, 0, ScaledDc(w, rl[pos], iq[0]));
    next := pos + 1;
    var k := 0;
    var usedCol: set<nat> := {};
    ghost var all, end := Coefficients(rl, pos, iq, w), CoefsEnd(rl, pos + 1, 0);
    CoefsAscend(rl, pos + 1, 0, iq, qScale, w);
    while true
      invariant Reading(blk[at..at + 64], usedCol, rl, next, k, iq, qScale, w, all, end)
      invariant forall n :: 0 <= n < blk.Length && !(at <= n < at + 64) ==> blk[n] == old(blk[n])
      decreases 64 - k
    {
      var code := rl[next];
      if code == MDEC_END_OF_DATA { break; }
      var l := k + RleRun(code) + 1;
      if l > 63 { k := l; break; }
      ghost var b, cols := blk[at..at + 64], usedCol;
      Store(blk, at, Zscan(l), Scaled(w, code, iq[l], qScale));
      usedCol := if Zscan(l) > 7 then usedCol + {Zscan(l) % 8} else usedCol;
      ReadStep(b, cols, rl, next, k, iq, qScale, w, all, end, l, blk[at..at + 64], usedCol);
      next, k := next + 1, l;
    }
    next := next + 1;
    used := if k == 0 then DcOnly else Mask(usedCol);
  }

  /** Where block `i` of the macroblock at `pos` begins, as far as the stream goes. */
  function BlockStart(rl: seq<nat>, pos: nat, i: nat): (p: nat)
    ensures pos <= p
  {
    if i == 0 then pos
    else
      var p := BlockStart(rl, pos, i - 1);
      if BlockIn(rl, p) then CoefsEnd(rl, p + 1, 0) else p
  }

  /** The stream holds the six blocks of the macroblock at `pos`. */
  ghost predicate MacroblockIn(rl: seq<nat>, pos: nat) {
    forall i :: 0 <= i < 6 ==> BlockIn(rl, BlockStart(rl, pos, i))
  }

  /** The coefficients of block `i` of the macroblock at `pos`: Cr, Cb, and Y1 to Y4. */
  function CoefficientsAt(rl: seq<nat>, pos: nat, i: nat, iqY: seq<Int32>, iqUv: seq<Int32>, w: Word): Block
    requires |iqY| == 64 == |iqUv| && BlockIn(rl, BlockStart(rl, pos, i))
  {
    Coefficients(rl, BlockStart(rl, pos, i), if i < 2 then iqUv else iqY, w)
  }

  /** The first coefficient in place, each other one at its zigzag place, and zeroes. */
  ghost predicate InPlace(b: Block, dc: Int32, cs: seq<Coef>) {
    && b[0] == dc && Ascending(cs, 0)
    && (forall j :: 0 <= j < |cs| ==> b[Zscan(cs[j].k)] == cs[j].val)
    && (forall n :: 0 < n < 64 && (forall j :: 0 <= j < |cs| ==> Zscan(cs[j].k) != n) ==> b[n] == 0)
  }

  lemma NotFirst(k: nat)
    requires 0 < k < 64
    ensures Zscan(k) != 0
  {
    ZscanIsZigzag(0);
    hide Zscan;
    if Zscan(k) == 0 { ZscanDistinct(k, 0); }
  }

  lemma ScatterInPlace(dc: Int32, cs: seq<Coef>)
    requires Ascending(cs, 0)
    ensures InPlace(Scatter(Zeros()[0 := dc], cs), dc, cs)
  {
    hide Zscan, Scatter;
    ScatterReadsBack(Zeros()[0 := dc], cs, 0);
    forall j | 0 <= j < |cs| ensures Zscan(cs[j].k) != 0 {
      NotFirst(cs[j].k);
    }
  }

  lemma CoefficientsInPlace(rl: seq<nat>, pos: nat, iq: seq<Int32>, w: Word)
    requires |iq| == 64 && BlockIn(rl, pos)
    ensures InPlace(Coefficients(rl, pos, iq, w), ScaledDc(w, rl[pos], iq[0]),
                    Coefs(rl, pos + 1, 0, iq, RleRun(rl[pos]), w))
  {
    hide Coefs, Scatter, ScaledDc, InPlace, Zeros, RleRun, Ascending;
    CoefsAscend(rl, pos + 1, 0, iq, RleRun(rl[pos]), w);
    ScatterInPlace(ScaledDc(w, rl[pos], iq[0]), Coefs(rl, pos + 1, 0, iq, RleRun(rl[pos]), w));
  }

  /** The coefficients of block `i`: the first of its first code, each other one of the code for its zigzag place, and
      zeroes; Cr and Cb by the one table, Y1 to Y4 by the other. */
  lemma CoefficientsAre(rl: seq<nat>, pos: nat, i: nat, iqY: seq<Int32>, iqUv: seq<Int32>, w: Word)
    requires |iqY| == 64 == |iqUv| && i < 6 && BlockIn(rl, BlockStart(rl, pos, i))
    ensures var start, iq := BlockStart(rl, pos, i), if i == 0 || i == 1 then iqUv else iqY;
            InPlace(CoefficientsAt(rl, pos, i, iqY, iqUv, w), ScaledDc(w, rl[start], iq[0]),
                    Coefs(rl, start + 1, 0, iq, RleRun(rl[start]), w))
  {
    hide Coefs, Coefficients, InPlace, BlockStart, RleRun, ScaledDc;
    CoefficientsInPlace(rl, BlockStart(rl, pos, i), if i < 2 then iqUv else iqY, w);
  }

  /** Block `i` of the macroblock at `pos`, by the plain transform. */
  function BlockAt(rl: seq<nat>, pos: nat, i: nat, iqY: seq<Int32>, iqUv: seq<Int32>, w: Word): Block
    requires |iqY| == 64 == |iqUv| && BlockIn(rl, BlockStart(rl, pos, i))
  {
    Plain(Transform8(w), CoefficientsAt(rl, pos, i, iqY, iqUv, w))
  }

  /** The six blocks of the macroblock at `pos`. */
  ghost function Macroblock(rl: seq<nat>, pos: nat, iqY: seq<Int32>, iqUv: seq<Int32>, w: Word): (bs: seq<Block>)
    requires |iqY| == 64 == |iqUv| && MacroblockIn(rl, pos)
    ensures |bs| == 6
  {
    seq(6, i requires 0 <= i < 6 => BlockAt(rl, pos, i, iqY, iqUv, w))
  }

  /** The first `i` blocks one after another. */
  ghost predicate LaidOut(s: seq<Int32>, bs: seq<Block>, i: nat) {
    i <= |bs| && |s| == 64 * i && forall j :: 0 <= j < i ==> s[64 * j..64 * j + 64] == bs[j]
  }

  /** The value in row `r` and column `c` of block `i`. */
  function EntryAt(s: seq<Int32>, i: nat, r: nat, c: nat): Int32
    requires |s| == 384 && i < 6 && r < 8 && c < 8
  {
    s[64 * i + 8 * r + c]
  }

  /** The macroblock laid out is the two-dimensional inverse cosine transform of its calm blocks, up to rounding. */
  lemma LaidOutIsCosines(rl: seq<nat>, pos: nat, iqY: seq<Int32>, iqUv: seq<Int32>, w: Word, s: seq<Int32>,
                         i: nat, m: nat, r: nat, c: nat)
    requires |iqY| == 64 == |iqUv| && MacroblockIn(rl, pos) && Exact(w) && i < 6 && r < 8 && c < 8
    requires LaidOut(s, Macroblock(rl, pos, iqY, iqUv, w), 6) && Calm(CoefficientsAt(rl, pos, i, iqY, iqUv, w), m)
    ensures NearCosines(CoefficientsAt(rl, pos, i, iqY, iqUv, w), m, r, c, EntryAt(s, i, r, c))
  {
    hide Exact, BlockIn, CoefficientsAt, NearCosines, Calm, Plain, Transform8;
    PlainIsCosines(w, CoefficientsAt(rl, pos, i, iqY, iqUv, w), m, r, c);
    var bs := Macroblock(rl, pos, iqY, iqUv, w);
    assert s[64 * i..64 * i + 64] == bs[i] == BlockAt(rl, pos, i, iqY, iqUv, w);
    assert EntryAt(s, i, r, c) == s[64 * i..64 * i + 64][8 * r + c];
  }

  lemma LaidOutStep(s: seq<Int32>, bs: seq<Block>, i: nat, t: seq<Int32>)
    requires LaidOut(s, bs, i) && i < |bs| && t == bs[i]
    ensures LaidOut(s + t, bs, i + 1)
  {
    forall j | 0 <= j < i ensures (s + t)[64 * j..64 * j + 64] == s[64 * j..64 * j + 64] {
    }
    assert (s + t)[64 * i..64 * i + 64] == t;
  }

  /** Block `i` decoded and transformed. */
  method TransformBlock(blk: array<Int32>, i: nat, rl: seq<nat>, pos: nat, start: nat,
                        iqY: seq<Int32>, iqUv: seq<Int32>, w: Word)
    returns (next: nat)
    requires blk.Length == 384 && |iqY| == 64 == |iqUv| && Exact(w) && i < 6
    requires BlockIn(rl, BlockStart(rl, pos, i))
    requires start == BlockStart(rl, pos, i) && blk[64 * i..64 * i + 64] == Zeros()
    modifies blk
    ensures blk[64 * i..64 * i + 64] == BlockAt(rl, pos, i, iqY, iqUv, w) && next == BlockStart(rl, pos, i + 1)
    ensures forall n :: 0 <= n < blk.Length && !(64 * i <= n < 64 * i + 64) ==> blk[n] == old(blk[n])
  {
    hide Coefficients, CoefsEnd, BlockIn, Plain, Transform8, Sound, Flat, Exact, Zeros;
    ButterflyIsFlat(w);
    var used;
    next, used := DecodeBlock(blk, 64 * i, rl, start, if i < 2 then iqUv else iqY, w);
    Idct(blk, 64 * i, used, Transform8(w));
  }

  /** The blocks are decoded into zeroes. */
  method Clear(blk: array<Int32>)
    modifies blk
    ensures forall m :: 0 <= m < blk.Length ==> blk[m] == 0
  {
    for n := 0 to blk.Length
      invariant forall m :: 0 <= m < n ==> blk[m] == 0
    {
      blk[n] := 0;
    }
  }

  lemma BlockAppended(before: seq<Int32>, after: seq<Int32>, at: nat, s: seq<Int32>, b: seq<Int32>, t: seq<Int32>)
    requires at + 64 <= |before| == |after| && s == before[..at] && b == after[at..at + 64] && t == after[..at + 64]
    requires forall n :: 0 <= n < at ==> after[n] == before[n]
    ensures t == s + b
  {
  }

  /** One block more. */
  method NextBlock(blk: array<Int32>, i: nat, rl: seq<nat>, pos: nat, start: nat,
                   iqY: seq<Int32>, iqUv: seq<Int32>, w: Word, ghost bs: seq<Block>)
    returns (next: nat)
    requires blk.Length == 384 && |iqY| == 64 == |iqUv| && Exact(w) && i < 6 == |bs|
    requires BlockIn(rl, BlockStart(rl, pos, i)) && bs[i] == BlockAt(rl, pos, i, iqY, iqUv, w)
    requires start == BlockStart(rl, pos, i) && LaidOut(blk[..64 * i], bs, i)
    requires forall m :: 64 * i <= m < 384 ==> blk[m] == 0
    modifies blk
    ensures next == BlockStart(rl, pos, i + 1) && LaidOut(blk[..64 * (i + 1)], bs, i + 1)
    ensures forall m :: 64 * (i + 1) <= m < 384 ==> blk[m] == 0
  {
    hide BlockAt, Exact, BlockIn;
    ghost var s, before := blk[..64 * i], blk[..];
    assert blk[64 * i..64 * i + 64] == Zeros();
    next := TransformBlock(blk, i, rl, pos, start, iqY, iqUv, w);
    LaidOutStep(s, bs, i, blk[64 * i..64 * i + 64]);
    BlockAppended(before, blk[..], 64 * i, s, blk[64 * i..64 * i + 64], blk[..64 * (i + 1)]);
  }

  /** `rl2blk` (src/mdec.cpp:266-305): six blocks, each the plain inverse transform of its coefficients. */
  method Rl2Blk(blk: array<Int32>, rl: seq<nat>, pos: nat, iqY: seq<Int32>, iqUv: seq<Int32>, w: Word)
    returns (next: nat)
    requires blk.Length == 384 && |iqY| == 64 == |iqUv| && MacroblockIn(rl, pos) && Exact(w)
    modifies blk
    ensures LaidOut(blk[..], Macroblock(rl, pos, iqY, iqUv, w), 6) && next == BlockStart(rl, pos, 6)
    ensures forall i, m, r, c ::
              0 <= i < 6 && 0 <= r < 8 && 0 <= c < 8 && Calm(CoefficientsAt(rl, pos, i, iqY, iqUv, w), m) ==>
              NearCosines(CoefficientsAt(rl, pos, i, iqY, iqUv, w), m, r, c, EntryAt(blk[..], i, r, c))
  {
    hide Calm, NearCosines, CoefficientsAt;
    ghost var bs := Macroblock(rl, pos, iqY, iqUv, w);
    Clear(blk);
    next := pos;
    for i := 0 to 6
      invariant next == BlockStart(rl, pos, i) && LaidOut(blk[..64 * i], bs, i)
      invariant forall m :: 64 * i <= m < 384 ==> blk[m] == 0
    {
      next := NextBlock(blk, i, rl, pos, next, iqY, iqUv, w, bs);
    }
    assert blk[..384] == blk[..];
    forall i, m, r, c |
      0 <= i < 6 && 0 <= r < 8 && 0 <= c < 8 && Calm(CoefficientsAt(rl, pos, i, iqY, iqUv, w), m)
      ensures NearCosines(CoefficientsAt(rl, pos, i, iqY, iqUv, w), m, r, c, EntryAt(blk[..], i, r, c))
    {
      LaidOutIsCosines(rl, pos, iqY, iqUv, w, blk[..], i, m, r, c);
    }
  }
}
