/** The IMA ADPCM encoder and decoder of compressed audio tracks (src/cdriso.cpp:111-192, 2235-2291 and
    2757-2856): two separate pieces of code that must compute the same predictors, and sectors that can each be
    decoded from their own header. */
module ImaAdpcm {

  type Int16 = x: int | -32768 <= x < 32768

  type Byte = x: int | 0 <= x < 256

  type Nibble = x: int | 0 <= x < 16

  type Index = x: int | 0 <= x <= 88

  /** What encoder and decoder carry from sample to sample. */
  datatype State = State(predictor: Int16, stepIdx: Index)

  /** `ima_step_table` (src/cdriso.cpp:111-121), by its lines. */
  function Step(i: Index): (step: nat)
    ensures 7 <= step <= 32767
  {
    var line :=
      match i / 10
      case 0 => [7, 8, 9, 10, 11, 12, 13, 14, 16, 17]
      case 1 => [19, 21, 23, 25, 28, 31, 34, 37, 41, 45]
      case 2 => [50, 55, 60, 66, 73, 80, 88, 97, 107, 118]
      case 3 => [130, 143, 157, 173, 190, 209, 230, 253, 279, 307]
      case 4 => [337, 371, 408, 449, 494, 544, 598, 658, 724, 796]
      case 5 => [876, 963, 1060, 1166, 1282, 1411, 1552, 1707, 1878, 2066]
      case 6 => [2272, 2499, 2749, 3024, 3327, 3660, 4026, 4428, 4871, 5358]
      case 7 => [5894, 6484, 7132, 7845, 8630, 9493, 10442, 11487, 12635, 13899]
      case 8 => [15289, 16818, 18500, 20350, 22385, 24623, 27086, 29794, 32767, 32767];
    line[i % 10]
  }

  /** `ima_index_table` (src/cdriso.cpp:123-126). */
  function IndexChange(n: Nibble): int {
    [-1, -1, -1, -1, 2, 4, 6, 8, -1, -1, -1, -1, 2, 4, 6, 8][n]
  }

  function Saturated(x: int): Int16 {
    if x > 32767 then 32767 else if x < -32768 then -32768 else x
  }

  function Clamped(i: int): Index {
    if i < 0 then 0 else if i > 88 then 88 else i
  }

  predicate Bit(n: Nibble, mask: nat)
    requires mask > 0
  {
    n / mask % 2 == 1
  }

  /** How far a nibble moves the predictor. */
  function Change(n: Nibble, step: nat): int {
    var diff := step / 8 + (if Bit(n, 1) then step / 4 else 0) + (if Bit(n, 2) then step / 2 else 0)
                + (if Bit(n, 4) then step else 0);
    if Bit(n, 8) then -diff else diff
  }

  /** The state after a nibble; its predictor is the sample the nibble stands for. */
  function Decoded(s: State, n: Nibble): State {
    State(Saturated(s.predictor + Change(n, Step(s.stepIdx))), Clamped(s.stepIdx + IndexChange(n)))
  }

  /** The nibble that moves a predictor nearest to a sample `d0` away. */
  function Nearest(d0: int, step: nat): Nibble {
    var d1 := if d0 < 0 then -d0 else d0;
    var d2 := if d1 >= step then d1 - step else d1;
    var d3 := if d2 >= step / 2 then d2 - step / 2 else d2;
    (if d0 < 0 then 8 else 0) + (if d1 >= step then 4 else 0) + (if d2 >= step / 2 then 2 else 0)
    + (if d3 >= step / 4 then 1 else 0)
  }

  /** The nibble the encoder chooses for a sample. */
  function Quantized(s: State, sample: Int16): Nibble {
    Nearest(sample - s.predictor, Step(s.stepIdx))
  }

  function Abs(x: int): nat {
    if x < 0 then -x else x
  }

  /** The predictor `next` follows the sample: if it was within two steps of it, it is now as close as an eighth
      of a step and two; if it was further away, it has moved at least a step towards it and has not passed it. */
  predicate Follows(predictor: int, step: nat, sample: int, next: int) {
    if Abs(sample - predictor) < 2 * step then Abs(sample - next) <= step / 8 + 2
    else Abs(next - predictor) >= step && (predictor < next <= sample || sample <= next < predictor)
  }

  /** What the three lower bits add up to for a sample `d` above the predictor. */
  function Reached(d: nat, step: nat): nat {
    var d2 := if d >= step then d - step else d;
    var d3 := if d2 >= step / 2 then d2 - step / 2 else d2;
    step / 8 + (if d >= step then step else 0) + (if d2 >= step / 2 then step / 2 else 0)
    + (if d3 >= step / 4 then step / 4 else 0)
  }

  lemma Approach(d: nat, step: nat)
    requires step >= 4
    ensures if d < 2 * step then Abs(d - Reached(d, step)) <= step / 8 + 2 else step <= Reached(d, step) <= d
  {
  }

  /** The bits of the nibble, one by one. */
  lemma NearestBits(d0: int, step: nat)
    ensures var n := Nearest(d0, step);
            var d1 := Abs(d0);
            var d2 := if d1 >= step then d1 - step else d1;
            var d3 := if d2 >= step / 2 then d2 - step / 2 else d2;
            && (Bit(n, 8) <==> d0 < 0) && (Bit(n, 4) <==> d1 >= step)
            && (Bit(n, 2) <==> d2 >= step / 2) && (Bit(n, 1) <==> d3 >= step / 4)
  {
  }

  /** How far the nearest nibble moves: about as far as the sample is, or most of the way. */
  lemma NearestReaches(d: int, step: nat)
    requires step >= 4
    ensures var c := Change(Nearest(d, step), step);
            if Abs(d) < 2 * step then Abs(d - c) <= step / 8 + 2
            else step <= Abs(c) <= Abs(d) && (d < 0 <==> c < 0)
  {
    NearestBits(d, step);
    Approach(Abs(d), step);
    var n := Nearest(d, step);
    assert Abs(Change(n, step)) == Reached(Abs(d), step);
  }

  /** Saturation moves the predictor no further from a sample that is in range. */
  lemma StaysClose(predictor: Int16, step: nat, sample: Int16, next: int)
    requires step >= 4
    requires if Abs(sample - predictor) < 2 * step then Abs(sample - next) <= step / 8 + 2
             else step <= Abs(next - predictor) <= Abs(sample - predictor) && (sample < predictor <==> next < predictor)
    ensures Follows(predictor, step, sample, Saturated(next))
  {
  }

  lemma NearestFollows(predictor: Int16, step: nat, sample: Int16)
    requires step >= 4
    ensures Follows(predictor, step, sample, Saturated(predictor + Change(Nearest(sample - predictor, step), step)))
  {
    var d := sample - predictor;
    NearestReaches(d, step);
    StaysClose(predictor, step, sample, predictor + Change(Nearest(d, step), step));
  }

  /** One encoding step follows the sample, also when the predictor saturates. */
  lemma EncodingFollows(s: State, sample: Int16)
    ensures Follows(s.predictor, Step(s.stepIdx), sample, Decoded(s, Quantized(s, sample)).predictor)
  {
    NearestFollows(s.predictor, Step(s.stepIdx), sample);
  }

  // ---------------------------------------------------------------------------
  // The step
  // ---------------------------------------------------------------------------

  /** The rule of the IMA standard: a small move, by its three lower bits, takes the index down by one, and a larger
      one takes it up by two to eight, from 0 to 88. */
  predicate Adapted(i: Index, n: Nibble, i': Index) {
    var m := n % 8;
    if m < 4 then i' == (if i == 0 then 0 else i - 1)
    else i' == (if i + 2 * (m - 3) > 88 then 88 else i + 2 * (m - 3))
  }

  lemma DecodedAdapts(s: State, n: Nibble)
    ensures Adapted(s.stepIdx, n, Decoded(s, n).stepIdx)
  {
  }

  lemma ChangeSize(n: Nibble, step: nat)
    ensures Abs(Change(n, step)) == step / 8 + (if n % 2 == 1 then step / 4 else 0)
                                    + (if n / 2 % 2 == 1 then step / 2 else 0) + (if n / 4 % 2 == 1 then step else 0)
    ensures if n < 8 then Change(n, step) >= 0 else Change(n, step) <= 0
  {
  }

  /** A nibble stands for (m + 1/2) quarters of a step, m being its three lower bits, each term rounded down. */
  lemma ChangeIs(n: Nibble, step: nat)
    ensures (2 * (n % 8) + 1) * step - 20 < 8 * Abs(Change(n, step)) <= (2 * (n % 8) + 1) * step
    ensures if n < 8 then Change(n, step) >= 0 else Change(n, step) <= 0
  {
    ChangeSize(n, step);
    hide Change, Abs;
    match n % 8 {
      case 0 =>
      case 1 =>
      case 2 =>
      case 3 =>
      case 4 =>
      case 5 =>
      case 6 =>
      case 7 =>
    }
  }

  /** The table's steps grow by a tenth each, to less than one and a tenth, and by more than two every eight; the last
      is cut to 16 bits. */
  predicate Spaced(i: nat)
    requires i < 88
  {
    && (i <= 80 ==> Step(i + 8) > 2 * Step(i))
    && (i < 87 ==> -11 < 10 * Step(i + 1) - 11 * Step(i) < 11)
  }

  lemma Spaced0(i: nat)
    requires 0 <= i < 8
    ensures Spaced(i)
  {
    assert Spaced(0) && Spaced(1) && Spaced(2) && Spaced(3);
    assert Spaced(4) && Spaced(5) && Spaced(6) && Spaced(7);
  }

  lemma Spaced1(i: nat)
    requires 8 <= i < 16
    ensures Spaced(i)
  {
    assert Spaced(8) && Spaced(9) && Spaced(10) && Spaced(11);
    assert Spaced(12) && Spaced(13) && Spaced(14) && Spaced(15);
  }

  lemma Spaced2(i: nat)
    requires 16 <= i < 24
    ensures Spaced(i)
  {
    assert Spaced(16) && Spaced(17) && Spaced(18) && Spaced(19);
    assert Spaced(20) && Spaced(21) && Spaced(22) && Spaced(23);
  }

  lemma Spaced3(i: nat)
    requires 24 <= i < 32
    ensures Spaced(i)
  {
    assert Spaced(24) && Spaced(25) && Spaced(26) && Spaced(27);
    assert Spaced(28) && Spaced(29) && Spaced(30) && Spaced(31);
  }

  lemma Spaced4(i: nat)
    requires 32 <= i < 40
    ensures Spaced(i)
  {
    assert Spaced(32) && Spaced(33) && Spaced(34) && Spaced(35);
    assert Spaced(36) && Spaced(37) && Spaced(38) && Spaced(39);
  }

  lemma Spaced5(i: nat)
    requires 40 <= i < 48
    ensures Spaced(i)
  {
    assert Spaced(40) && Spaced(41) && Spaced(42) && Spaced(43);
    assert Spaced(44) && Spaced(45) && Spaced(46) && Spaced(47);
  }

  lemma Spaced6(i: nat)
    requires 48 <= i < 56
    ensures Spaced(i)
  {
    assert Spaced(48) && Spaced(49) && Spaced(50) && Spaced(51);
    assert Spaced(52) && Spaced(53) && Spaced(54) && Spaced(55);
  }

  lemma Spaced7(i: nat)
    requires 56 <= i < 64
    ensures Spaced(i)
  {
    assert Spaced(56) && Spaced(57) && Spaced(58) && Spaced(59);
    assert Spaced(60) && Spaced(61) && Spaced(62) && Spaced(63);
  }

  lemma Spaced8(i: nat)
    requires 64 <= i < 72
    ensures Spaced(i)
  {
    assert Spaced(64) && Spaced(65) && Spaced(66) && Spaced(67);
    assert Spaced(68) && Spaced(69) && Spaced(70) && Spaced(71);
  }

  lemma Spaced9(i: nat)
    requires 72 <= i < 80
    ensures Spaced(i)
  {
    assert Spaced(72) && Spaced(73) && Spaced(74) && Spaced(75);
    assert Spaced(76) && Spaced(77) && Spaced(78) && Spaced(79);
  }

  lemma Spaced10(i: nat)
    requires 80 <= i < 88
    ensures Spaced(i)
  {
    assert Spaced(80) && Spaced(81) && Spaced(82) && Spaced(83);
    assert Spaced(84) && Spaced(85) && Spaced(86) && Spaced(87);
  }

  lemma StepTable(i: nat)
    requires i < 88
    ensures Spaced(i) && Step(0) == 7 && Step(88) == 32767
  {
    hide Spaced;
    match i / 8 {
      case 0 => Spaced0(i);
      case 1 => Spaced1(i);
      case 2 => Spaced2(i);
      case 3 => Spaced3(i);
      case 4 => Spaced4(i);
      case 5 => Spaced5(i);
      case 6 => Spaced6(i);
      case 7 => Spaced7(i);
      case 8 => Spaced8(i);
      case 9 => Spaced9(i);
      case 10 => Spaced10(i);
    }
  }

  lemma FullNibble(n: Nibble)
    requires Bit(n, 1) && Bit(n, 2) && Bit(n, 4)
    ensures n % 8 == 7
  {
  }

  /** A sample out of reach gets a nibble of full size, and the step more than doubles, or is the largest. */
  lemma OutOfReach(s: State, sample: Int16)
    requires Abs(sample - s.predictor) >= 2 * Step(s.stepIdx)
    ensures Quantized(s, sample) % 8 == 7
    ensures var i := Decoded(s, Quantized(s, sample)).stepIdx;
            if s.stepIdx <= 80 then i == s.stepIdx + 8 && Step(i) > 2 * Step(s.stepIdx) else i == 88
  {
    var n, step, d := Quantized(s, sample), Step(s.stepIdx), sample - s.predictor;
    NearestBits(d, step);
    FullNibble(n);
    DecodedAdapts(s, n);
    if s.stepIdx <= 80 { StepTable(s.stepIdx); }
  }

  /** The state after a sample has been held `n` times. */
  function Held(s: State, sample: Int16, n: nat): State {
    if n == 0 then s else var r := Held(s, sample, n - 1); Decoded(r, Quantized(r, sample))
  }

  predicate InReach(s: State, sample: Int16) {
    Abs(sample - s.predictor) < 2 * Step(s.stepIdx)
  }

  lemma ApproachStep(s: State, sample: Int16)
    requires !InReach(s, sample)
    ensures var r := Decoded(s, Quantized(s, sample));
            && r.stepIdx == (if s.stepIdx + 8 > 88 then 88 else s.stepIdx + 8)
            && Abs(sample - r.predictor) <= Abs(sample - s.predictor) - 7
  {
    hide Decoded, Quantized;
    OutOfReach(s, sample);
    EncodingFollows(s, sample);
    hide Step;
  }

  lemma HeldNone(s: State, sample: Int16)
    ensures Held(s, sample, 0) == s
  {
  }

  lemma HeldStep(s: State, sample: Int16, n: nat)
    requires n > 0
    ensures var r := Held(s, sample, n - 1); Held(s, sample, n) == Decoded(r, Quantized(r, sample))
  {
  }

  lemma {:induction false} Approaches(s: State, sample: Int16, n: nat)
    requires forall k :: 0 <= k < n ==> !InReach(Held(s, sample, k), sample)
    ensures var r := Held(s, sample, n);
            && r.stepIdx >= (if s.stepIdx + 8 * n > 88 then 88 else s.stepIdx + 8 * n)
            && Abs(sample - r.predictor) <= Abs(sample - s.predictor) - 7 * n
  {
    hide Held, Decoded, Quantized, Step, InReach;
    if n == 0 {
      HeldNone(s, sample);
    } else {
      Approaches(s, sample, n - 1);
      HeldStep(s, sample, n);
      ApproachStep(Held(s, sample, n - 1), sample);
    }
  }

  lemma LargestReaches(s: State, sample: Int16)
    requires s.stepIdx == 88 && Abs(sample - s.predictor) <= 65534 - 7
    ensures InReach(s, sample)
  {
    assert Step(88) == 32767;
  }

  lemma HeldOnce(s: State, sample: Int16, n: nat)
    requires InReach(Held(s, sample, n), sample)
    ensures Abs(sample - Held(s, sample, n + 1).predictor) <= Step(Held(s, sample, n).stepIdx) / 8 + 2
  {
    HeldStep(s, sample, n + 1);
    hide Held, Decoded, Quantized, Step;
    EncodingFollows(Held(s, sample, n), sample);
  }

  /** From every state, a sample held for at most eleven times is within two steps, and met by the next one to an
      eighth of a step and two. */
  lemma HeldIsMet(s: State, sample: Int16)
    ensures exists n :: 0 <= n <= 11 && InReach(Held(s, sample, n), sample)
                        && Abs(sample - Held(s, sample, n + 1).predictor) <= Step(Held(s, sample, n).stepIdx) / 8 + 2
  {
    hide Decoded, Quantized, Held;
    if forall k :: 0 <= k < 11 ==> !InReach(Held(s, sample, k), sample) {
      Approaches(s, sample, 11);
      LargestReaches(Held(s, sample, 11), sample);
      HeldOnce(s, sample, 11);
    } else {
      var k :| 0 <= k < 11 && InReach(Held(s, sample, k), sample);
      HeldOnce(s, sample, k);
    }
  }

  // ---------------------------------------------------------------------------
  // Samples, one at a time
  // ---------------------------------------------------------------------------

  /** `ima_decode_sample` (src/cdriso.cpp:129-147). */
  method ImaDecodeSample(nibble: Nibble, predictor: Int16, stepIdx: Index)
    returns (sample: Int16, predictor': Int16, stepIdx': Index)
    ensures State(predictor', stepIdx') == Decoded(State(predictor, stepIdx), nibble) && sample == predictor'
    ensures Adapted(stepIdx, nibble, stepIdx')
  {
    DecodedAdapts(State(predictor, stepIdx), nibble);
    var step := Step(stepIdx);
    var diff: int := step / 8;
    if Bit(nibble, 1) { diff := diff + step / 4; }
    if Bit(nibble, 2) { diff := diff + step / 2; }
    if Bit(nibble, 4) { diff := diff + step; }
    if Bit(nibble, 8) { diff := -diff; }
    var x: int := predictor + diff;
    if x > 32767 { x := 32767; }
    if x < -32768 { x := -32768; }
    predictor' := x;
    var i: int := stepIdx + IndexChange(nibble);
    if i < 0 { i := 0; }
    if i > 88 { i := 88; }
    stepIdx' := i;
    sample := predictor';
  }

  /** The first half of `ima_encode_sample` (src/cdriso.cpp:154-173). */
  method ChooseNibble(sample: Int16, predictor: Int16, step: nat) returns (nibble: Nibble)
    requires step >= 7
    ensures nibble == Nearest(sample - predictor, step)
  {
    var diff: int := sample - predictor;
    nibble := 0;
    if diff < 0 { nibble := 8; diff := -diff; }
    if diff >= step { nibble := nibble + 4; diff := diff - step; }
    if diff >= step / 2 { nibble := nibble + 2; diff := diff - step / 2; }
    if diff >= step / 4 { nibble := nibble + 1; }
  }

  /** The second half of `ima_encode_sample` (src/cdriso.cpp:175-189), which decodes the nibble again. */
  method FollowNibble(nibble: Nibble, predictor: Int16, stepIdx: Index) returns (predictor': Int16, stepIdx': Index)
    ensures State(predictor', stepIdx') == Decoded(State(predictor, stepIdx), nibble)
  {
    var step := Step(stepIdx);
    var decodeDiff: int := step / 8;
    if Bit(nibble, 1) { decodeDiff := decodeDiff + step / 4; }
    if Bit(nibble, 2) { decodeDiff := decodeDiff + step / 2; }
    if Bit(nibble, 4) { decodeDiff := decodeDiff + step; }
    if Bit(nibble, 8) { decodeDiff := -decodeDiff; }
    var newPred: int := predictor + decodeDiff;
    if newPred > 32767 { newPred := 32767; }
    if newPred < -32768 { newPred := -32768; }
    predictor' := newPred;
    var i: int := stepIdx + IndexChange(nibble);
    if i < 0 { i := 0; }
    if i > 88 { i := 88; }
    stepIdx' := i;
  }

  /** `ima_encode_sample` (src/cdriso.cpp:153-192): the state it leaves is the one the decoder reaches by the
      nibble it returns. */
  method ImaEncodeSample(sample: Int16, predictor: Int16, stepIdx: Index)
    returns (nibble: Nibble, predictor': Int16, stepIdx': Index)
    ensures nibble == Quantized(State(predictor, stepIdx), sample)
    ensures State(predictor', stepIdx') == Decoded(State(predictor, stepIdx), nibble)
    ensures Adapted(stepIdx, nibble, stepIdx') && Follows(predictor, Step(stepIdx), sample, predictor')
  {
    DecodedAdapts(State(predictor, stepIdx), Quantized(State(predictor, stepIdx), sample));
    EncodingFollows(State(predictor, stepIdx), sample);
    nibble := ChooseNibble(sample, predictor, Step(stepIdx));
    predictor', stepIdx' := FollowNibble(nibble, predictor, stepIdx);
  }

  // ---------------------------------------------------------------------------
  // Sequences of samples
  // ---------------------------------------------------------------------------

  /** A decoder's step and an encoder's choice, as functions. */
  datatype Codec = Codec(next: (State, Nibble) -> State, choose: (State, Int16) -> Nibble)

  function Next(c: Codec, s: State, n: Nibble): State {
    c.next(s, n)
  }

  function Choose(c: Codec, s: State, x: Int16): Nibble {
    c.choose(s, x)
  }

  /** The codec is the one above. */
  ghost predicate IsIma(c: Codec) {
    && (forall s, n {:trigger Decoded(s, n)} :: Next(c, s, n) == Decoded(s, n))
    && (forall s, x {:trigger Quantized(s, x)} :: Choose(c, s, x) == Quantized(s, x))
  }

  const IMA: Codec := Codec((s: State, n: Nibble) => Decoded(s, n), (s: State, x: Int16) => Quantized(s, x))

  lemma ImaIsIma()
    ensures IsIma(IMA)
  {
  }

  /** The samples a sequence of nibbles stands for. */
  function Samples(c: Codec, s: State, ns: seq<Nibble>): (r: seq<Int16>)
    ensures |r| == |ns|
    decreases |ns|
  {
    if ns == [] then [] else [Next(c, s, ns[0]).predictor] + Samples(c, Next(c, s, ns[0]), ns[1..])
  }

  function FinalState(c: Codec, s: State, ns: seq<Nibble>): State
    decreases |ns|
  {
    if ns == [] then s else FinalState(c, Next(c, s, ns[0]), ns[1..])
  }

  /** The nibbles the encoder chooses for a sequence of samples. */
  function Encoded(c: Codec, s: State, xs: seq<Int16>): (r: seq<Nibble>)
    ensures |r| == |xs|
    decreases |xs|
  {
    if xs == [] then []
    else [Choose(c, s, xs[0])] + Encoded(c, Next(c, s, Choose(c, s, xs[0])), xs[1..])
  }

  /** The decoded sample `j` follows the encoded one from the predictor before it. */
  lemma {:induction false} DecodedFollows(c: Codec, s: State, xs: seq<Int16>, j: nat)
    requires IsIma(c) && j < |xs|
    ensures var before := FinalState(c, s, Encoded(c, s, xs)[..j]);
            Follows(before.predictor, Step(before.stepIdx), xs[j], Samples(c, s, Encoded(c, s, xs))[j])
    decreases j
  {
    var ns := Encoded(c, s, xs);
    if j == 0 {
      EncodingFollows(s, xs[0]);
    } else {
      var s1 := Next(c, s, ns[0]);
      assert ns[1..] == Encoded(c, s1, xs[1..]);
      DecodedFollows(c, s1, xs[1..], j - 1);
      assert ns[..j][1..] == ns[1..][..j - 1];
    }
  }

  // ---------------------------------------------------------------------------
  // Sectors
  // ---------------------------------------------------------------------------

  type Sector = b: seq<Byte> | |b| == 152 witness seq(152, _ => 0)

  function LowByte(p: Int16): Byte {
    p as int % 256
  }

  function HighByte(p: Int16): Byte {
    p as int / 256 % 256
  }

  /** Two bytes read as a signed 16-bit number. */
  function FromBytes(lo: Byte, hi: Byte): Int16 {
    var x: int := lo + 256 * hi;
    if x < 32768 then x else x - 65536
  }

  function Pair(lo: Nibble, hi: Nibble): Byte {
    16 * hi as int + lo as int
  }

  function Packed(ns: seq<Nibble>): (r: seq<Byte>)
    ensures |r| == |ns| / 2
  {
    seq(|ns| / 2, j requires 0 <= j < |ns| / 2 => Pair(ns[2 * j], ns[2 * j + 1]))
  }

  /** A sector: the state before its first sample, 294 nibbles in pairs, low one first, and a byte of padding. */
  function SectorOf(s: State, ns: seq<Nibble>): Sector
    requires |ns| == 294
  {
    [LowByte(s.predictor), HighByte(s.predictor), s.stepIdx, 0] + Packed(ns) + [0]
  }

  /** The state a sector's header gives (src/cdriso.cpp:2265-2268). */
  function Header(b: Sector): State {
    State(FromBytes(b[0], b[1]), if b[2] > 88 then 88 else b[2])
  }

  function Nibbles(b: Sector): (r: seq<Nibble>)
    ensures |r| == 294
  {
    seq(294, j requires 0 <= j < 294 => if j % 2 == 0 then b[4 + j / 2] % 16 else b[4 + j / 2] / 16)
  }

  lemma NibblesAt(b: Sector, i: nat)
    requires i < 147
    ensures Nibbles(b)[2 * i] == b[4 + i] % 16 && Nibbles(b)[2 * i + 1] == b[4 + i] / 16
  {
    assert 2 * i % 2 == 0 && 2 * i / 2 == i && (2 * i + 1) % 2 == 1 && (2 * i + 1) / 2 == i;
  }

  lemma NibbleReadsBack(s: State, ns: seq<Nibble>, j: nat)
    requires |ns| == 294 && j < 294
    ensures Nibbles(SectorOf(s, ns))[j] == ns[j]
  {
    var b := SectorOf(s, ns);
    assert b[4 + j / 2] == Packed(ns)[j / 2] == Pair(ns[2 * (j / 2)], ns[2 * (j / 2) + 1]);
  }

  /** A sector reads back as it was written. */
  lemma SectorReadsBack(s: State, ns: seq<Nibble>)
    requires |ns| == 294
    ensures Header(SectorOf(s, ns)) == s && Nibbles(SectorOf(s, ns)) == ns
  {
    forall j | 0 <= j < 294 ensures Nibbles(SectorOf(s, ns))[j] == ns[j] {
      NibbleReadsBack(s, ns, j);
    }
  }

  // ---------------------------------------------------------------------------
  // Tracks
  // ---------------------------------------------------------------------------

  /** Division by four rounding towards zero, as C rounds. */
  function Quarter(x: int): int {
    if x < 0 then -(-x / 4) else x / 4
  }

  /** The mono sample of two stereo pairs, `in` being the samples of a raw sector (src/cdriso.cpp:2805-2811). */
  function Mono(raw: seq<Int16>, j: nat): int
    requires 4 * j + 4 <= |raw|
  {
    Quarter(raw[4 * j] as int + raw[4 * j + 1] as int + raw[4 * j + 2] as int + raw[4 * j + 3] as int)
  }

  /** The mono sample is their average to less than one. */
  lemma MonoAverage(raw: seq<Int16>, j: nat)
    requires 4 * j + 4 <= |raw|
    ensures var sum := raw[4 * j] as int + raw[4 * j + 1] as int + raw[4 * j + 2] as int + raw[4 * j + 3] as int;
            Abs(4 * Mono(raw, j) - sum) < 4 && Abs(4 * Mono(raw, j)) <= Abs(sum)
  {
  }

  /** The mono sample lies among the four it stands for, so the clamps never fire. */
  lemma MonoBetween(raw: seq<Int16>, j: nat, lo: int, hi: int)
    requires 4 * j + 4 <= |raw|
    requires forall k :: 4 * j <= k < 4 * j + 4 ==> lo <= raw[k] <= hi
    ensures lo <= Mono(raw, j) <= hi
  {
    assert lo <= raw[4 * j] <= hi && lo <= raw[4 * j + 1] <= hi;
    assert lo <= raw[4 * j + 2] <= hi && lo <= raw[4 * j + 3] <= hi;
  }

  /** A raw sector of 588 stereo samples. */
  type Raw = b: seq<Int16> | |b| == 1176 witness seq(1176, _ => 0)

  function Downsampled(raw: Raw): (r: seq<Int16>)
    ensures |r| == 294
  {
    seq(294, j requires 0 <= j < 294 => (MonoBetween(raw, j, -32768, 32767); Mono(raw, j)))
  }

  /** The encoder's state before sector `k` of a track. */
  function StateAt(c: Codec, track: seq<Raw>, k: nat): State
    requires k <= |track|
  {
    if k == 0 then State(0, 0)
    else FinalState(c, StateAt(c, track, k - 1), Encoded(c, StateAt(c, track, k - 1), Downsampled(track[k - 1])))
  }

  function EncodedSector(c: Codec, track: seq<Raw>, k: nat): Sector
    requires k < |track|
  {
    SectorOf(StateAt(c, track, k), Encoded(c, StateAt(c, track, k), Downsampled(track[k])))
  }

  /** The first `k` sectors of a converted track. */
  function EncodedTrack(c: Codec, track: seq<Raw>, k: nat): (r: seq<Sector>)
    requires k <= |track|
    ensures |r| == k && forall i :: 0 <= i < k ==> r[i] == EncodedSector(c, track, i)
  {
    if k == 0 then [] else EncodedTrack(c, track, k - 1) + [EncodedSector(c, track, k - 1)]
  }

  /** Every sector of a track decodes from its own header alone to exactly the encoder's predictors for it, and
      the decoder ends in the state of the next sector's header. */
  lemma SectorDecodesAlone(c: Codec, track: seq<Raw>, k: nat)
    requires k < |track|
    ensures var b, s := EncodedSector(c, track, k), StateAt(c, track, k);
            && Samples(c, Header(b), Nibbles(b)) == Samples(c, s, Encoded(c, s, Downsampled(track[k])))
            && FinalState(c, Header(b), Nibbles(b)) == StateAt(c, track, k + 1)
            && (k + 1 < |track| ==> FinalState(c, Header(b), Nibbles(b)) == Header(EncodedSector(c, track, k + 1)))
  {
    var s := StateAt(c, track, k);
    SectorReadsBack(s, Encoded(c, s, Downsampled(track[k])));
    if k + 1 < |track| {
      var t := StateAt(c, track, k + 1);
      SectorReadsBack(t, Encoded(c, t, Downsampled(track[k + 1])));
    }
  }

  /** Each decoded sample four times: two stereo pairs. */
  function Upsampled(xs: seq<Int16>): (r: seq<Int16>)
    ensures |r| == 4 * |xs|
  {
    seq(4 * |xs|, i requires 0 <= i < 4 * |xs| => xs[i / 4])
  }

  // ---------------------------------------------------------------------------
  // The encode and decode loops
  // ---------------------------------------------------------------------------

  /** The downsampling loop (src/cdriso.cpp:2802-2815). */
  method Downsample(raw: Raw) returns (samples: seq<Int16>)
    ensures samples == Downsampled(raw)
  {
    samples := [];
    for j := 0 to 294
      invariant samples == Downsampled(raw)[..j]
    {
      var mono := Mono(raw, j);
      MonoBetween(raw, j, -32768, 32767);
      if mono > 32767 { mono := 32767; }
      if mono < -32768 { mono := -32768; }
      samples := samples + [mono];
    }
  }

  /** What is still to be encoded continues what has been: `done` nibbles so far, `xs` to come. */
  ghost predicate Encoding(c: Codec, s0: State, all: seq<Int16>, done: seq<Nibble>, s: State, xs: seq<Int16>) {
    && Encoded(c, s0, all) == done + Encoded(c, s, xs)
    && FinalState(c, s0, Encoded(c, s0, all)) == FinalState(c, s, Encoded(c, s, xs))
  }

  lemma EncodeOne(c: Codec, s0: State, all: seq<Int16>, done: seq<Nibble>, s: State, xs: seq<Int16>)
    requires xs != [] && Encoding(c, s0, all, done, s, xs)
    ensures Encoding(c, s0, all, done + [Choose(c, s, xs[0])], Next(c, s, Choose(c, s, xs[0])), xs[1..])
  {
    var n := Choose(c, s, xs[0]);
    assert Encoded(c, s, xs)[1..] == Encoded(c, Next(c, s, n), xs[1..]);
    assert done + [n] + Encoded(c, Next(c, s, n), xs[1..]) == done + Encoded(c, s, xs);
  }

  lemma EncodedAll(c: Codec, s0: State, all: seq<Int16>, done: seq<Nibble>, s: State, xs: seq<Int16>)
    requires Encoding(c, s0, all, done, s, xs) && xs == []
    ensures Encoded(c, s0, all) == done && FinalState(c, s0, Encoded(c, s0, all)) == s
  {
    assert done + [] == done;
  }

  lemma PackedMore(ns: seq<Nibble>, n1: Nibble, n2: Nibble)
    requires |ns| % 2 == 0
    ensures Packed(ns + [n1, n2]) == Packed(ns) + [Pair(n1, n2)]
  {
  }

  /** A pair of samples encoded to a byte. */
  method EncodePair(ghost c: Codec, sample1: Int16, sample2: Int16, predictor: Int16, stepIdx: Index,
                    ghost s0: State, ghost all: seq<Int16>, ghost done: seq<Nibble>, ghost xs: seq<Int16>)
    returns (byte: Byte, predictor': Int16, stepIdx': Index, ghost done': seq<Nibble>)
    requires IsIma(c) && |xs| >= 2 && xs[0] == sample1 && xs[1] == sample2 && |done| % 2 == 0
    requires Encoding(c, s0, all, done, State(predictor, stepIdx), xs)
    ensures |done'| == |done| + 2
    ensures Encoding(c, s0, all, done', State(predictor', stepIdx'), xs[2..])
    ensures Packed(done') == Packed(done) + [byte]
  {
    var nibble1, p1, i1 := ImaEncodeSample(sample1, predictor, stepIdx);
    EncodeOne(c, s0, all, done, State(predictor, stepIdx), xs);
    var nibble2, p2, i2 := ImaEncodeSample(sample2, p1, i1);
    EncodeOne(c, s0, all, done + [nibble1], State(p1, i1), xs[1..]);
    byte, predictor', stepIdx' := Pair(nibble1, nibble2), p2, i2;
    PackedMore(done, nibble1, nibble2);
    assert done + [nibble1] + [nibble2] == done + [nibble1, nibble2];
    assert xs[1..][1..] == xs[2..];
    done' := done + [nibble1, nibble2];
  }

  lemma SectorAssembled(buf: seq<Byte>, s: State, ns: seq<Nibble>)
    requires |ns| == 294 && |buf| == 152 && buf[151] == 0 && buf[4..151] == Packed(ns)
    requires buf[..4] == [LowByte(s.predictor), HighByte(s.predictor), s.stepIdx, 0]
    ensures buf == SectorOf(s, ns)
  {
    assert buf == buf[..4] + buf[4..151] + [buf[151]];
  }

  /** The encoding of one sector (src/cdriso.cpp:2817-2831). */
  method EncodeSector(ghost c: Codec, samples: seq<Int16>, outBuf: array<Byte>, predictor: Int16, stepIdx: Index)
    returns (predictor': Int16, stepIdx': Index)
    requires IsIma(c) && |samples| == 294 && outBuf.Length == 152
    modifies outBuf
    ensures var s := State(predictor, stepIdx);
            && outBuf[..] == SectorOf(s, Encoded(c, s, samples))
            && State(predictor', stepIdx') == FinalState(c, s, Encoded(c, s, samples))
  {
    ghost var s := State(predictor, stepIdx);
    ghost var header := [LowByte(predictor), HighByte(predictor), stepIdx, 0];
    ghost var done: seq<Nibble> := [];
    outBuf[0], outBuf[1], outBuf[2], outBuf[3] := LowByte(predictor), HighByte(predictor), stepIdx, 0;
    predictor', stepIdx' := predictor, stepIdx;
    for j := 0 to 147
      invariant outBuf[..4] == header && outBuf[4..4 + j] == Packed(done)
      invariant |done| == 2 * j && Encoding(c, s, samples, done, State(predictor', stepIdx'), samples[2 * j..])
    {
      var byte;
      byte, predictor', stepIdx', done := EncodePair(c, samples[2 * j], samples[2 * j + 1], predictor', stepIdx',
                                                     s, samples, done, samples[2 * j..]);
      outBuf[4 + j] := byte;
      assert samples[2 * j..][2..] == samples[2 * (j + 1)..];
      assert outBuf[4..4 + (j + 1)] == outBuf[4..4 + j] + [byte];
    }
    EncodedAll(c, s, samples, done, State(predictor', stepIdx'), samples[294..]);
    outBuf[151] := 0;
    SectorAssembled(outBuf[..], s, done);
  }

  /** The sectors of a converted track (src/cdriso.cpp:2789-2848). */
  method ConvertToBinadpcm(ghost c: Codec, track: seq<Raw>) returns (file: seq<Sector>)
    requires IsIma(c)
    ensures file == EncodedTrack(c, track, |track|)
  {
    file := [];
    var predictor: Int16, stepIdx: Index := 0, 0;
    var outBuf := new Byte[152];
    for k := 0 to |track|
      invariant fresh(outBuf) && outBuf.Length == 152
      invariant State(predictor, stepIdx) == StateAt(c, track, k) && file == EncodedTrack(c, track, k)
    {
      var samples := Downsample(track[k]);
      predictor, stepIdx := EncodeSector(c, samples, outBuf, predictor, stepIdx);
      file := file + [outBuf[..]];
    }
  }

  /** What is still to be decoded continues what has been. */
  ghost predicate Decoding(c: Codec, s0: State, all: seq<Nibble>, done: seq<Int16>, s: State, ns: seq<Nibble>) {
    && Samples(c, s0, all) == done + Samples(c, s, ns)
    && FinalState(c, s0, all) == FinalState(c, s, ns)
  }

  lemma DecodeOne(c: Codec, s0: State, all: seq<Nibble>, done: seq<Int16>, s: State, ns: seq<Nibble>)
    requires ns != [] && Decoding(c, s0, all, done, s, ns)
    ensures Decoding(c, s0, all, done + [Next(c, s, ns[0]).predictor], Next(c, s, ns[0]), ns[1..])
  {
    var x := Next(c, s, ns[0]).predictor;
    assert done + [x] + Samples(c, Next(c, s, ns[0]), ns[1..]) == done + Samples(c, s, ns);
  }

  /** Two samples decoded from a byte, low nibble first. */
  method DecodePair(ghost c: Codec, byte: Byte, predictor: Int16, stepIdx: Index,
                    ghost s0: State, ghost all: seq<Nibble>, ghost done: seq<Int16>, ghost ns: seq<Nibble>)
    returns (sample1: Int16, sample2: Int16, predictor': Int16, stepIdx': Index)
    requires IsIma(c) && |ns| >= 2 && ns[0] == byte % 16 && ns[1] == byte / 16
    requires Decoding(c, s0, all, done, State(predictor, stepIdx), ns)
    ensures Decoding(c, s0, all, done + [sample1, sample2], State(predictor', stepIdx'), ns[2..])
  {
    var p1, i1;
    sample1, p1, i1 := ImaDecodeSample(byte % 16, predictor, stepIdx);
    DecodeOne(c, s0, all, done, State(predictor, stepIdx), ns);
    sample2, predictor', stepIdx' := ImaDecodeSample(byte / 16, p1, i1);
    DecodeOne(c, s0, all, done + [sample1], State(p1, i1), ns[1..]);
    assert done + [sample1] + [sample2] == done + [sample1, sample2];
    assert ns[1..][1..] == ns[2..];
  }

  /** A sample stored as two stereo pairs. */
  method StorePair(out: array<Int16>, at: nat, sample: Int16)
    requires at + 4 <= out.Length
    modifies out
    ensures out[..at + 4] == old(out[..at]) + [sample, sample, sample, sample]
  {
    out[at], out[at + 1], out[at + 2], out[at + 3] := sample, sample, sample, sample;
  }

  /** Two samples stored as four stereo pairs (src/cdriso.cpp:2280-2288). */
  method StorePairs(out: array<Int16>, at: nat, sample1: Int16, sample2: Int16)
    requires at + 8 <= out.Length
    modifies out
    ensures out[..at + 8] == old(out[..at]) + Upsampled([sample1, sample2])
  {
    StorePair(out, at, sample1);
    StorePair(out, at + 4, sample2);
    assert Upsampled([sample1, sample2]) == [sample1, sample1, sample1, sample1] + [sample2, sample2, sample2, sample2];
  }

  lemma UpsampledMore(xs: seq<Int16>, ys: seq<Int16>)
    ensures Upsampled(xs + ys) == Upsampled(xs) + Upsampled(ys)
  {
  }

  /** `done` are the samples of the first `i` bytes of a sector, and `s` is the state after them. */
  ghost predicate DecodedTo(c: Codec, b: Sector, i: nat, done: seq<Int16>, s: State) {
    && i <= 147 && |done| == 2 * i
    && Decoding(c, Header(b), Nibbles(b), done, s, Nibbles(b)[2 * i..])
  }

  lemma DecodingStarts(c: Codec, b: Sector)
    ensures DecodedTo(c, b, 0, [], Header(b))
  {
    assert Nibbles(b)[0..] == Nibbles(b);
  }

  lemma DecodingEnds(c: Codec, b: Sector, done: seq<Int16>, s: State)
    requires DecodedTo(c, b, 147, done, s)
    ensures done == Samples(c, Header(b), Nibbles(b))
  {
    assert done + [] == done;
  }

  /** One byte of a sector. */
  method ReadPair(ghost c: Codec, b: Sector, i: nat, out: array<Int16>, predictor: Int16, stepIdx: Index,
                  ghost done: seq<Int16>)
    returns (predictor': Int16, stepIdx': Index, ghost done': seq<Int16>)
    requires IsIma(c) && out.Length == 1176 && i < 147
    requires DecodedTo(c, b, i, done, State(predictor, stepIdx)) && out[..8 * i] == Upsampled(done)
    modifies out
    ensures DecodedTo(c, b, i + 1, done', State(predictor', stepIdx')) && out[..8 * (i + 1)] == Upsampled(done')
  {
    ghost var s0, all := Header(b), Nibbles(b);
    ghost var ns := all[2 * i..];
    NibblesAt(b, i);
    var sample1, sample2;
    sample1, sample2, predictor', stepIdx' := DecodePair(c, b[4 + i], predictor, stepIdx, s0, all, done, ns);
    StorePairs(out, 8 * i, sample1, sample2);
    UpsampledMore(done, [sample1, sample2]);
    done' := done + [sample1, sample2];
    assert ns[2..] == all[2 * (i + 1)..];
  }

  /** The decoding of one sector (src/cdriso.cpp:2265-2289): every decoded sample becomes two stereo pairs. */
  method ReadSector(ghost c: Codec, b: Sector, out: array<Int16>)
    requires IsIma(c) && out.Length == 1176
    modifies out
    ensures out[..] == Upsampled(Samples(c, Header(b), Nibbles(b)))
  {
    var predictor := FromBytes(b[0], b[1]);
    var stepIdx: Index := if b[2] > 88 then 88 else b[2];
    ghost var done: seq<Int16> := [];
    DecodingStarts(c, b);
    for i := 0 to 147
      invariant DecodedTo(c, b, i, done, State(predictor, stepIdx)) && out[..8 * i] == Upsampled(done)
    {
      predictor, stepIdx, done := ReadPair(c, b, i, out, predictor, stepIdx, done);
    }
    DecodingEnds(c, b, done, State(predictor, stepIdx));
    assert out[..1176] == out[..];
  }

  /** Encoder and decoder in lockstep: a track converted by the one (src/cdriso.cpp:2789-2848) and a sector of it read
      by the other (src/cdriso.cpp:2265-2289) give the encoder's own predictors for that sector, two stereo pairs
      each. */
  method PlayBack(ghost c: Codec, track: seq<Raw>, k: nat, out: array<Int16>)
    requires IsIma(c) && k < |track| && out.Length == 1176
    modifies out
    ensures var s := StateAt(c, track, k);
            out[..] == Upsampled(Samples(c, s, Encoded(c, s, Downsampled(track[k]))))
  {
    var file := ConvertToBinadpcm(c, track);
    SectorDecodesAlone(c, track, k);
    ReadSector(c, file[k], out);
  }

  /** Every stereo value played back is the predictor of its mono sample, and follows that sample from the predictor
      before it. */
  lemma PlayBackFollows(c: Codec, track: seq<Raw>, k: nat, out: seq<Int16>, n: nat)
    requires IsIma(c) && k < |track| && n < 1176
    requires var s := StateAt(c, track, k); out == Upsampled(Samples(c, s, Encoded(c, s, Downsampled(track[k]))))
    ensures var s, xs := StateAt(c, track, k), Downsampled(track[k]);
            var before := FinalState(c, s, Encoded(c, s, xs)[..n / 4]);
            |out| == 1176 && Follows(before.predictor, Step(before.stepIdx), xs[n / 4], out[n])
  {
    DecodedFollows(c, StateAt(c, track, k), Downsampled(track[k]), n / 4);
  }
}
