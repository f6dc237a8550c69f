/** The geometry engine's operations on three vectors against their single forms (src/gte.cpp:399-463, 539-685 and
    831-890).  The error register is the set of its bit numbers. */
module Gte {

  datatype Vec = Vec(x: int, y: int, z: int)

  datatype Matrix = Matrix(r1: Vec, r2: Vec, r3: Vec)

  datatype Point = Point(x: int, y: int)

  datatype Color = Color(r: int, g: int, b: int, code: int)

  /** The control registers, and whether far-colour overflows are checked for on this platform
      (src/gte.cpp:35-37, 211-251). */
  datatype Control = Control(rot: Matrix, tr: Vec, light: Matrix, lightColor: Matrix, back: Vec, far: Vec,
                             ofx: int, ofy: int, h: nat, dqa: int, dqb: int, paranoid: bool)

  /** The data registers the operations write. */
  datatype Data = Data(ir0: int, ir: Vec, mac0: int, mac: Vec, sz: seq<int>, sxy: seq<Point>, rgb: seq<Color>)

  function Shr(x: int, n: nat): int
    requires n == 4 || n == 8 || n == 12 || n == 16
  {
    if n == 4 then x / 16 else if n == 8 then x / 256 else if n == 12 then x / 4096 else x / 65536
  }

  /** A 64-bit value stored in a 32-bit register. */
  function ToS32(x: int): int {
    (x + 0x8000_0000) % 0x1_0000_0000 - 0x8000_0000
  }

  function Dot(a: Vec, b: Vec): int {
    a.x * b.x + a.y * b.y + a.z * b.z
  }

  // ---------------------------------------------------------------------------
  // Limits
  // ---------------------------------------------------------------------------

  /** `LIM` (src/gte.cpp:199-209): the value limited, and the bits set if it had to be. */
  function Limited(x: int, max: int, min: int): int {
    if x > max then max else if x < min then min else x
  }

  function LimBits(x: int, max: int, min: int, bits: set<nat>): set<nat> {
    if x > max || x < min then bits else {}
  }

  /** `BOUNDS` (src/gte.cpp:190-197): the bits set by a value out of 32 bits. */
  function BoundsBits(x: int, high: set<nat>, low: set<nat>): set<nat> {
    if x > 0x7fff_ffff then high else if x < -0x8000_0000 then low else {}
  }

  function BoundsABits(m: Vec): set<nat> {
    BoundsBits(m.x, {30}, {31, 27}) + BoundsBits(m.y, {29}, {31, 26}) + BoundsBits(m.z, {28}, {31, 25})
  }

  function BoundsFBits(x: int): set<nat> {
    BoundsBits(x, {31, 16}, {31, 15})
  }

  function LimB(m: Vec, lm: bool): Vec {
    var min := if lm then 0 else -0x8000;
    Vec(Limited(m.x, 0x7fff, min), Limited(m.y, 0x7fff, min), Limited(m.z, 0x7fff, min))
  }

  function LimBBits(m: Vec, lm: bool): set<nat> {
    var min := if lm then 0 else -0x8000;
    LimBits(m.x, 0x7fff, min, {31, 24}) + LimBits(m.y, 0x7fff, min, {31, 23}) + LimBits(m.z, 0x7fff, min, {22})
  }

  function LimC(m: Vec, code: int): Color {
    Color(Limited(Shr(m.x, 4), 0xff, 0), Limited(Shr(m.y, 4), 0xff, 0), Limited(Shr(m.z, 4), 0xff, 0), code)
  }

  function LimCBits(m: Vec): set<nat> {
    LimBits(Shr(m.x, 4), 0xff, 0, {21}) + LimBits(Shr(m.y, 4), 0xff, 0, {20}) + LimBits(Shr(m.z, 4), 0xff, 0, {19})
  }

  function Truncated(m: Vec): Vec {
    Vec(ToS32(m.x), ToS32(m.y), ToS32(m.z))
  }

  // ---------------------------------------------------------------------------
  // Perspective
  // ---------------------------------------------------------------------------

  /** A vector through a matrix and a translation, in 20.12 fixed point. */
  function Moved(t: Vec, m: Matrix, v: Vec): Vec {
    Vec(Shr(4096 * t.x + Dot(m.r1, v), 12), Shr(4096 * t.y + Dot(m.r2, v), 12), Shr(4096 * t.z + Dot(m.r3, v), 12))
  }

  /** The native `DIVIDE` (src/gte.cpp:255-260). */
  function Divide(n: nat, d: nat): nat {
    if n < 2 * d then n * 65536 / d else 0xffff_ffff
  }

  /** `limE(DIVIDE(...))`. */
  function Quotient(c: Control, z: nat): nat {
    if Divide(c.h, z) > 0x1ffff then 0x1ffff else Divide(c.h, z)
  }

  function DepthBits(c: Control, z: int): set<nat> {
    LimBits(z, 0xffff, 0, {31, 18}) + if Divide(c.h, Limited(z, 0xffff, 0)) > 0x1ffff then {31, 17} else {}
  }

  function ScreenAt(c: Control, ir: Vec, q: nat): Point {
    Point(Limited(Shr(c.ofx + ir.x * q, 16), 0x3ff, -0x400), Limited(Shr(c.ofy + ir.y * q, 16), 0x3ff, -0x400))
  }

  function ScreenBits(c: Control, ir: Vec, q: nat): set<nat> {
    var x, y := c.ofx + ir.x * q, c.ofy + ir.y * q;
    BoundsFBits(x) + LimBits(Shr(x, 16), 0x3ff, -0x400, {31, 14})
    + BoundsFBits(y) + LimBits(Shr(y, 16), 0x3ff, -0x400, {31, 13})
  }

  /** A vertex projected: its place, its depth, and the quotient it leaves. */
  datatype Projected = Projected(mac: Vec, ir: Vec, sz: nat, sxy: Point, quotient: nat, bits: set<nat>)

  function Project(c: Control, v: Vec): Projected {
    var m := Moved(c.tr, c.rot, v);
    var mac := Truncated(m);
    var ir := LimB(mac, false);
    var sz := Limited(mac.z, 0xffff, 0);
    var q := Quotient(c, sz);
    Projected(mac, ir, sz, ScreenAt(c, ir, q), q,
              BoundsABits(m) + LimBBits(mac, false) + DepthBits(c, mac.z) + ScreenBits(c, ir, q))
  }

  /** Depth cueing from the quotient (src/gte.cpp:427-429 and 460-462). */
  function Cue(c: Control, q: nat): int {
    c.dqb + c.dqa * q
  }

  function CueBits(c: Control, q: nat): set<nat> {
    BoundsFBits(Cue(c, q)) + LimBits(Shr(Cue(c, q), 12), 0x1000, 0, {12})
  }

  ghost predicate Shaped(d: Data) {
    |d.sz| == 4 && |d.sxy| == 3 && |d.rgb| == 3
  }

  /** What projecting a vertex does to the data registers: the depth and screen queues move up by one. */
  function Pushed(c: Control, d: Data, p: Projected): Data
    requires Shaped(d)
  {
    Data(Limited(Shr(Cue(c, p.quotient), 12), 0x1000, 0), p.ir, ToS32(Cue(c, p.quotient)), p.mac,
         d.sz[1..] + [p.sz], d.sxy[1..] + [p.sxy], d.rgb)
  }

  /** `gteRTPS` by its effect on the data registers. */
  function Rtps(c: Control, d: Data, v: Vec): Data
    requires Shaped(d)
  {
    Pushed(c, d, Project(c, v))
  }

  function RtpsFlag(c: Control, v: Vec): set<nat> {
    Project(c, v).bits + CueBits(c, Project(c, v).quotient)
  }

  function ThreeBits(c: Control, p0: Projected, p1: Projected, p2: Projected): set<nat> {
    p0.bits + p1.bits + p2.bits + CueBits(c, p2.quotient)
  }

  /** The error register `gteRTPT` leaves. */
  function RtptFlag(c: Control, v: seq<Vec>): set<nat>
    requires |v| == 3
  {
    ThreeBits(c, Project(c, v[0]), Project(c, v[1]), Project(c, v[2]))
  }

  // Which vertices report what.

  predicate CueClamped(c: Control, q: nat) {
    Shr(Cue(c, q), 12) > 0x1000 || Shr(Cue(c, q), 12) < 0
  }

  predicate CueHigh(c: Control, q: nat) {
    Cue(c, q) > 0x7fff_ffff
  }

  predicate CueLow(c: Control, q: nat) {
    Cue(c, q) < -0x8000_0000
  }

  /** A screen coordinate of the vertex leaves 32 bits upwards, or downwards. */
  predicate ScreenHigh(c: Control, p: Projected) {
    c.ofx + p.ir.x * p.quotient > 0x7fff_ffff || c.ofy + p.ir.y * p.quotient > 0x7fff_ffff
  }

  predicate ScreenLow(c: Control, p: Projected) {
    c.ofx + p.ir.x * p.quotient < -0x8000_0000 || c.ofy + p.ir.y * p.quotient < -0x8000_0000
  }

  /** Depth cueing alone sets bit 12; it shares bits 16 and 15 with the screen coordinates, and 31 comes with either. */
  lemma CueBitsAre(c: Control, q: nat)
    ensures CueBits(c, q) <= {12, 15, 16, 31}
    ensures 12 in CueBits(c, q) <==> CueClamped(c, q)
    ensures 16 in CueBits(c, q) <==> CueHigh(c, q)
    ensures 15 in CueBits(c, q) <==> CueLow(c, q)
    ensures 31 in CueBits(c, q) <==> CueHigh(c, q) || CueLow(c, q)
  {
  }

  lemma ScreenBitsAre(c: Control, ir: Vec, q: nat)
    ensures 12 !in ScreenBits(c, ir, q)
    ensures 16 in ScreenBits(c, ir, q) <==>
            c.ofx + ir.x * q > 0x7fff_ffff || c.ofy + ir.y * q > 0x7fff_ffff
    ensures 15 in ScreenBits(c, ir, q) <==>
            c.ofx + ir.x * q < -0x8000_0000 || c.ofy + ir.y * q < -0x8000_0000
    ensures 16 in ScreenBits(c, ir, q) || 15 in ScreenBits(c, ir, q) ==> 31 in ScreenBits(c, ir, q)
  {
  }

  lemma EarlyBitsAre(c: Control, m: Vec, mac: Vec)
    ensures BoundsABits(m) <= {25, 26, 27, 28, 29, 30, 31} && LimBBits(mac, false) <= {22, 23, 24, 31}
    ensures DepthBits(c, mac.z) <= {17, 18, 31}
  {
  }

  lemma VertexBitsAre(c: Control, v: Vec)
    ensures var p := Project(c, v);
            && 12 !in p.bits && (16 in p.bits <==> ScreenHigh(c, p)) && (15 in p.bits <==> ScreenLow(c, p))
            && (ScreenHigh(c, p) || ScreenLow(c, p) ==> 31 in p.bits)
  {
    hide BoundsABits, LimBBits, DepthBits, ScreenBits;
    var p := Project(c, v);
    ScreenBitsAre(c, p.ir, p.quotient);
    EarlyBitsAre(c, Moved(c.tr, c.rot, v), p.mac);
    assert p.bits == BoundsABits(Moved(c.tr, c.rot, v)) + LimBBits(p.mac, false) + DepthBits(c, p.mac.z)
                     + ScreenBits(c, p.ir, p.quotient);
  }

  /** Nothing the first two vertices' depth cues overflow or saturate is left unreported by what the triple operation
      does compute. */
  ghost predicate CuesShown(c: Control, p0: Projected, p1: Projected, p2: Projected) {
    && (CueClamped(c, p0.quotient) || CueClamped(c, p1.quotient) ==> CueClamped(c, p2.quotient))
    && (CueHigh(c, p0.quotient) || CueHigh(c, p1.quotient) ==>
          CueHigh(c, p2.quotient) || ScreenHigh(c, p0) || ScreenHigh(c, p1) || ScreenHigh(c, p2))
    && (CueLow(c, p0.quotient) || CueLow(c, p1.quotient) ==>
          CueLow(c, p2.quotient) || ScreenLow(c, p0) || ScreenLow(c, p1) || ScreenLow(c, p2))
  }

  lemma UnionOf(a: set<nat>, b: set<nat>, c: set<nat>, x: set<nat>, y: set<nat>, z: set<nat>)
    ensures (a + x) + (b + y) + (c + z) == (a + b + c + z) + (x + y)
  {
  }

  lemma CuesLost(c: Control, p0: Projected, p1: Projected, p2: Projected)
    requires forall p :: p in {p0, p1, p2} ==>
               && 12 !in p.bits && (16 in p.bits <==> ScreenHigh(c, p)) && (15 in p.bits <==> ScreenLow(c, p))
               && (ScreenHigh(c, p) || ScreenLow(c, p) ==> 31 in p.bits)
    ensures var cues := CueBits(c, p0.quotient) + CueBits(c, p1.quotient);
            var three := ThreeBits(c, p0, p1, p2);
            three + cues == three <==> CuesShown(c, p0, p1, p2)
  {
    var three, cues := ThreeBits(c, p0, p1, p2), CueBits(c, p0.quotient) + CueBits(c, p1.quotient);
    CueBitsAre(c, p0.quotient);
    CueBitsAre(c, p1.quotient);
    CueBitsAre(c, p2.quotient);
    assert p0 in {p0, p1, p2} && p1 in {p0, p1, p2} && p2 in {p0, p1, p2};
    assert three + cues == three <==> cues <= three;
    assert cues <= three <==> (12 in cues ==> 12 in three) && (15 in cues ==> 15 in three)
                              && (16 in cues ==> 16 in three) && (31 in cues ==> 31 in three);
  }

  /** The error register of the triple operation is contained in the union of the single ones.  It is the whole
      union exactly if, of the first two vertices, a depth cue out of 0 to 0x1000 or out of 32 bits on one side finds
      its like in the last vertex's cue or, for the 32 bits, in a screen coordinate of any vertex: the triple
      operation cues for the last vertex only. */
  lemma RtptFlagExact(c: Control, v: seq<Vec>)
    requires |v| == 3
    ensures var all := RtpsFlag(c, v[0]) + RtpsFlag(c, v[1]) + RtpsFlag(c, v[2]);
            && RtptFlag(c, v) <= all
            && (RtptFlag(c, v) == all <==> CuesShown(c, Project(c, v[0]), Project(c, v[1]), Project(c, v[2])))
  {
    var p0, p1, p2 := Project(c, v[0]), Project(c, v[1]), Project(c, v[2]);
    VertexBitsAre(c, v[0]);
    VertexBitsAre(c, v[1]);
    VertexBitsAre(c, v[2]);
    CuesLost(c, p0, p1, p2);
    UnionOf(p0.bits, p1.bits, p2.bits, CueBits(c, p0.quotient), CueBits(c, p1.quotient), CueBits(c, p2.quotient));
  }

  /** On the axis of an unturned view, the quotient at distance `z` is that of the screen at distance 1. */
  lemma QuotientAt(c: Control, z: nat)
    requires c.rot.r3 == Vec(0, 0, 4096) && c.tr.z == 0 && c.h == 1 && 1 <= z < 0x8000
    ensures Project(c, Vec(0, 0, z)).quotient == 65536 / z
  {
    var v := Vec(0, 0, z);
    assert Dot(c.rot.r3, v) == 4096 * z;
    assert Moved(c.tr, c.rot, v).z == z;
    assert ToS32(z) == z;
  }

  /** A triangle on the axis whose nearest vertex alone saturates the depth cue: the single operation reports it,
      the triple one does not. */
  lemma RtptLosesCue(c: Control, v: seq<Vec>)
    requires c.rot.r3 == Vec(0, 0, 4096) && c.tr.z == 0 && c.h == 1 && c.dqa == 1000 && c.dqb == 0
    requires v == [Vec(0, 0, 2), Vec(0, 0, 0x4000), Vec(0, 0, 0x4000)]
    ensures 12 in RtpsFlag(c, v[0]) && 12 !in RtptFlag(c, v)
  {
    hide Project, CueBits;
    QuotientAt(c, 2);
    QuotientAt(c, 0x4000);
    VertexBitsAre(c, v[0]);
    VertexBitsAre(c, v[1]);
    VertexBitsAre(c, v[2]);
    assert Cue(c, 32768) == 32768000 && Cue(c, 4) == 4000;
    CueBitsAre(c, 32768);
    CueBitsAre(c, 4);
  }

  // ---------------------------------------------------------------------------
  // Light
  // ---------------------------------------------------------------------------

  /** `NCS`/`NCT`, `NCCS`/`NCCT` and `NCDS`/`NCDT`: the light alone, the light on the vertex colour, and that
      faded into the far colour. */
  datatype Kind = Plain | Tinted | Faded

  /** A colour before it is limited, with the bits set on the way. */
  datatype Lit = Lit(mac: Vec, bits: set<nat>)

  /** The light on a normal. */
  function Light(c: Control, v: Vec): Vec {
    Vec(Shr(Dot(c.light.r1, v), 12), Shr(Dot(c.light.r2, v), 12), Shr(Dot(c.light.r3, v), 12))
  }

  /** The light's colour over the background, before it is cut to 32 bits. */
  function Shade(c: Control, v: Vec): Vec {
    Moved(c.back, c.lightColor, LimB(Light(c, v), true))
  }

  function ShadeBits(c: Control, v: Vec): set<nat> {
    LimBBits(Light(c, v), true) + BoundsABits(Shade(c, v))
  }

  /** The vertex colour under light `ir`. */
  function Tint(rgbc: Color, ir: Vec): Vec {
    Vec(Shr(rgbc.r * ir.x, 8), Shr(rgbc.g * ir.y, 8), Shr(rgbc.b * ir.z, 8))
  }

  function Distance(far: Vec, t: Vec): Vec {
    Vec(far.x - t.x, far.y - t.y, far.z - t.z)
  }

  /** The vertex colour under light `ir`, faded into the far colour by `ir0`. */
  function Fade(c: Control, rgbc: Color, ir0: int, ir: Vec): Vec {
    var f := LimB(Truncated(Distance(c.far, Tint(rgbc, ir))), false);
    Vec(Shr(rgbc.r * 16 * ir.x + ir0 * f.x, 12), Shr(rgbc.g * 16 * ir.y + ir0 * f.y, 12),
        Shr(rgbc.b * 16 * ir.z + ir0 * f.z, 12))
  }

  function FadeBits(c: Control, rgbc: Color, ir: Vec): set<nat> {
    var d := Distance(c.far, Tint(rgbc, ir));
    (if c.paranoid then BoundsABits(d) else {}) + LimBBits(Truncated(d), false)
  }

  /** What a normal becomes, up to the limits a triple operation leaves to the end. */
  function Coloured(k: Kind, c: Control, rgbc: Color, ir0: int, v: Vec): Lit {
    var mac := Truncated(Shade(c, v));
    var ir := LimB(mac, true);
    match k
    case Plain => Lit(mac, ShadeBits(c, v) + LimCBits(mac))
    case Tinted => Lit(Tint(rgbc, ir), ShadeBits(c, v) + LimBBits(mac, true) + LimCBits(Tint(rgbc, ir)))
    case Faded =>
      Lit(Fade(c, rgbc, ir0, ir),
          ShadeBits(c, v) + LimBBits(mac, true) + FadeBits(c, rgbc, ir) + LimCBits(Fade(c, rgbc, ir0, ir)))
  }

  /** The intermediate registers at the end. */
  function LastIr(k: Kind, mac: Vec): Vec {
    if k == Tinted then mac else LimB(mac, true)
  }

  function LastBits(k: Kind, mac: Vec): set<nat> {
    if k == Tinted then {} else LimBBits(mac, true)
  }

  /** What a colour does to the data registers: the colour queue moves up by one. */
  function ColourPushed(k: Kind, code: int, d: Data, l: Lit): Data
    requires Shaped(d)
  {
    d.(ir := LastIr(k, l.mac), mac := l.mac, rgb := d.rgb[1..] + [LimC(l.mac, code)])
  }

  /** The single operation by its effect on the data registers. */
  function Nc(k: Kind, c: Control, rgbc: Color, d: Data, v: Vec): Data
    requires Shaped(d)
  {
    ColourPushed(k, rgbc.code, d, Coloured(k, c, rgbc, d.ir0, v))
  }

  function NcFlag(k: Kind, c: Control, rgbc: Color, ir0: int, v: Vec): set<nat> {
    Coloured(k, c, rgbc, ir0, v).bits + LastBits(k, Coloured(k, c, rgbc, ir0, v).mac)
  }

  function ThreeColourBits(k: Kind, l0: Lit, l1: Lit, l2: Lit): set<nat> {
    l0.bits + l1.bits + l2.bits + LastBits(k, l2.mac)
  }

  /** The error register the triple operation leaves. */
  function NctFlag(k: Kind, c: Control, rgbc: Color, ir0: int, v: seq<Vec>): set<nat>
    requires |v| == 3
  {
    ThreeColourBits(k, Coloured(k, c, rgbc, ir0, v[0]), Coloured(k, c, rgbc, ir0, v[1]),
                    Coloured(k, c, rgbc, ir0, v[2]))
  }

  // Which normals report what.

  /** A condition on each component. */
  datatype Marks = Marks(x: bool, y: bool, z: bool)

  function Either(a: Marks, b: Marks): Marks {
    Marks(a.x || b.x, a.y || b.y, a.z || b.z)
  }

  /** The components out of the limits of an intermediate register. */
  function Outside(m: Vec, lm: bool): Marks {
    var min := if lm then 0 else -0x8000;
    Marks(m.x > 0x7fff || m.x < min, m.y > 0x7fff || m.y < min, m.z > 0x7fff || m.z < min)
  }

  /** The components out of limits on the way to a normal's colour: of its light, and, when the vertex colour is
      used, of the light over the background and of the distance to the far colour. */
  function OutsideOnTheWay(k: Kind, c: Control, rgbc: Color, v: Vec): Marks {
    var light, shade := Outside(Light(c, v), true), Truncated(Shade(c, v));
    match k
    case Plain => light
    case Tinted => Either(light, Outside(shade, true))
    case Faded =>
      Either(Either(light, Outside(shade, true)),
             Outside(Truncated(Distance(c.far, Tint(rgbc, LimB(shade, true)))), false))
  }

  /** Bits 24, 23 and 22 stand for the three components, and 31 comes with the first two. */
  ghost predicate Shows(bits: set<nat>, m: Marks) {
    && (24 in bits <==> m.x) && (23 in bits <==> m.y) && (22 in bits <==> m.z) && (m.x || m.y ==> 31 in bits)
  }

  lemma LimBBitsAre(m: Vec, lm: bool)
    ensures Shows(LimBBits(m, lm), Outside(m, lm)) && LimBBits(m, lm) <= {22, 23, 24, 31}
    ensures 31 in LimBBits(m, lm) ==> Outside(m, lm).x || Outside(m, lm).y
  {
  }

  lemma ShowsMore(a: set<nat>, m: Marks, b: set<nat>, n: Marks)
    requires Shows(a, m) && Shows(b, n)
    ensures Shows(a + b, Either(m, n))
  {
  }

  lemma ShowsAmong(a: set<nat>, m: Marks, b: set<nat>)
    requires Shows(a, m) && 24 !in b && 23 !in b && 22 !in b
    ensures Shows(a + b, m)
  {
  }

  lemma ShadeBitsAre(c: Control, v: Vec)
    ensures Shows(ShadeBits(c, v), Outside(Light(c, v), true))
  {
    LimBBitsAre(Light(c, v), true);
    ShowsAmong(LimBBits(Light(c, v), true), Outside(Light(c, v), true), BoundsABits(Shade(c, v)));
  }

  lemma BlendBitsAre(c: Control, v: Vec)
    ensures var mac := Truncated(Shade(c, v));
            Shows(ShadeBits(c, v) + LimBBits(mac, true), Either(Outside(Light(c, v), true), Outside(mac, true)))
  {
    var mac := Truncated(Shade(c, v));
    ShadeBitsAre(c, v);
    LimBBitsAre(mac, true);
    ShowsMore(ShadeBits(c, v), Outside(Light(c, v), true), LimBBits(mac, true), Outside(mac, true));
  }

  lemma FadedBitsAre(c: Control, rgbc: Color, ir0: int, v: Vec, blend: set<nat>, fade: set<nat>, mac: Vec)
    requires Shows(blend, Either(Outside(Light(c, v), true), Outside(Truncated(Shade(c, v)), true)))
    requires var ir := LimB(Truncated(Shade(c, v)), true);
             Shows(fade, Outside(Truncated(Distance(c.far, Tint(rgbc, ir))), false))
    ensures Shows(blend + fade + LimCBits(mac), OutsideOnTheWay(Faded, c, rgbc, v))
  {
    ShowsAmong(blend + fade, OutsideOnTheWay(Faded, c, rgbc, v), LimCBits(mac));
  }

  lemma FadeBitsAre(c: Control, rgbc: Color, ir: Vec)
    ensures Shows(FadeBits(c, rgbc, ir), Outside(Truncated(Distance(c.far, Tint(rgbc, ir))), false))
  {
    var d := Distance(c.far, Tint(rgbc, ir));
    LimBBitsAre(Truncated(d), false);
    var bounds := if c.paranoid then BoundsABits(d) else {};
    ShowsAmong(LimBBits(Truncated(d), false), Outside(Truncated(d), false), bounds);
    assert FadeBits(c, rgbc, ir) == LimBBits(Truncated(d), false) + bounds;
  }

  /** The bits a normal's colour sets. */
  lemma ColourBitsAre(k: Kind, c: Control, rgbc: Color, ir0: int, v: Vec)
    ensures Shows(Coloured(k, c, rgbc, ir0, v).bits, OutsideOnTheWay(k, c, rgbc, v))
  {
    hide ShadeBits, Light, Shade, LimBBits, FadeBits, Fade, Tint, Outside, Shows;
    var mac, light := Truncated(Shade(c, v)), Outside(Light(c, v), true);
    var ir := LimB(mac, true);
    ShadeBitsAre(c, v);
    match k {
      case Plain =>
        ShowsAmong(ShadeBits(c, v), light, LimCBits(mac));
      case Tinted =>
        BlendBitsAre(c, v);
        ShowsAmong(ShadeBits(c, v) + LimBBits(mac, true), Either(light, Outside(mac, true)), LimCBits(Tint(rgbc, ir)));
      case Faded =>
        BlendBitsAre(c, v);
        FadeBitsAre(c, rgbc, ir);
        FadedBitsAre(c, rgbc, ir0, v, ShadeBits(c, v) + LimBBits(mac, true), FadeBits(c, rgbc, ir),
                     Fade(c, rgbc, ir0, ir));
    }
  }

  /** The colour a normal becomes, before its last limit. */
  function ColourOf(k: Kind, c: Control, rgbc: Color, ir0: int, v: Vec): Vec {
    Coloured(k, c, rgbc, ir0, v).mac
  }

  /** A component of the first two colours that leaves 0 to 0x7fff finds its like in the last colour, or on the way
      to any of the three. */
  ghost predicate LimitsShown(k: Kind, c: Control, rgbc: Color, ir0: int, v: seq<Vec>)
    requires |v| == 3
  {
    var first := Either(Outside(ColourOf(k, c, rgbc, ir0, v[0]), true), Outside(ColourOf(k, c, rgbc, ir0, v[1]), true));
    var shown := Either(Either(OutsideOnTheWay(k, c, rgbc, v[0]), OutsideOnTheWay(k, c, rgbc, v[1])),
                        Either(OutsideOnTheWay(k, c, rgbc, v[2]), Outside(ColourOf(k, c, rgbc, ir0, v[2]), true)));
    (first.x ==> shown.x) && (first.y ==> shown.y) && (first.z ==> shown.z)
  }

  lemma BitsLost(three: set<nat>, lost: set<nat>, shown: Marks, first: Marks)
    requires Shows(three, shown) && Shows(lost, first) && lost <= {22, 23, 24, 31}
    requires 31 in lost ==> first.x || first.y
    ensures three + lost == three <==> (first.x ==> shown.x) && (first.y ==> shown.y) && (first.z ==> shown.z)
  {
    assert three + lost == three <==> lost <= three;
    assert lost <= three <==> (22 in lost ==> 22 in three) && (23 in lost ==> 23 in three)
                              && (24 in lost ==> 24 in three) && (31 in lost ==> 31 in three);
  }

  lemma LimitsLost(k: Kind, c: Control, rgbc: Color, v: seq<Vec>, l0: Lit, l1: Lit, l2: Lit)
    requires |v| == 3 && k != Tinted
    requires Shows(l0.bits, OutsideOnTheWay(k, c, rgbc, v[0])) && Shows(l1.bits, OutsideOnTheWay(k, c, rgbc, v[1]))
    requires Shows(l2.bits, OutsideOnTheWay(k, c, rgbc, v[2]))
    ensures var first := Either(Outside(l0.mac, true), Outside(l1.mac, true));
            var shown := Either(Either(OutsideOnTheWay(k, c, rgbc, v[0]), OutsideOnTheWay(k, c, rgbc, v[1])),
                                Either(OutsideOnTheWay(k, c, rgbc, v[2]), Outside(l2.mac, true)));
            var lost, three := LastBits(k, l0.mac) + LastBits(k, l1.mac), ThreeColourBits(k, l0, l1, l2);
            three + lost == three <==> (first.x ==> shown.x) && (first.y ==> shown.y) && (first.z ==> shown.z)
  {
    var lost, three := LastBits(k, l0.mac) + LastBits(k, l1.mac), ThreeColourBits(k, l0, l1, l2);
    var way0, way1, way2 :=
      OutsideOnTheWay(k, c, rgbc, v[0]), OutsideOnTheWay(k, c, rgbc, v[1]), OutsideOnTheWay(k, c, rgbc, v[2]);
    LimBBitsAre(l0.mac, true);
    LimBBitsAre(l1.mac, true);
    LimBBitsAre(l2.mac, true);
    ShowsMore(LimBBits(l0.mac, true), Outside(l0.mac, true), LimBBits(l1.mac, true), Outside(l1.mac, true));
    ShowsMore(l0.bits, way0, l1.bits, way1);
    ShowsMore(l2.bits, way2, LimBBits(l2.mac, true), Outside(l2.mac, true));
    ShowsMore(l0.bits + l1.bits, Either(way0, way1), l2.bits + LimBBits(l2.mac, true),
              Either(way2, Outside(l2.mac, true)));
    assert three == l0.bits + l1.bits + (l2.bits + LimBBits(l2.mac, true));
    BitsLost(three, lost, Either(Either(way0, way1), Either(way2, Outside(l2.mac, true))),
             Either(Outside(l0.mac, true), Outside(l1.mac, true)));
  }

  /** What the first two last limits report is reported anyway. */
  ghost predicate Among(k: Kind, ls: seq<Lit>)
    requires |ls| == 3
  {
    var three := ThreeColourBits(k, ls[0], ls[1], ls[2]);
    three + (LastBits(k, ls[0].mac) + LastBits(k, ls[1].mac)) == three
  }

  lemma UnionOfLits(k: Kind, ls: seq<Lit>)
    requires |ls| == 3
    ensures var all := ls[0].bits + LastBits(k, ls[0].mac) + (ls[1].bits + LastBits(k, ls[1].mac))
                       + (ls[2].bits + LastBits(k, ls[2].mac));
            var three := ThreeColourBits(k, ls[0], ls[1], ls[2]);
            three <= all && (three == all <==> k == Tinted || Among(k, ls))
  {
    UnionOf(ls[0].bits, ls[1].bits, ls[2].bits,
            LastBits(k, ls[0].mac), LastBits(k, ls[1].mac), LastBits(k, ls[2].mac));
  }

  function AllColoured(k: Kind, c: Control, rgbc: Color, ir0: int, v: seq<Vec>): (ls: seq<Lit>)
    ensures |ls| == |v|
  {
    seq(|v|, i requires 0 <= i < |v| => Coloured(k, c, rgbc, ir0, v[i]))
  }

  ghost predicate Lights(k: Kind, c: Control, rgbc: Color, ir0: int, v: seq<Vec>, ls: seq<Lit>) {
    && |v| == |ls|
    && forall i {:trigger Coloured(k, c, rgbc, ir0, v[i])} ::
         0 <= i < |v| ==> ls[i] == Coloured(k, c, rgbc, ir0, v[i])
  }

  lemma AllLight(k: Kind, c: Control, rgbc: Color, ir0: int, v: seq<Vec>, ls: seq<Lit>)
    requires ls == AllColoured(k, c, rgbc, ir0, v) && |v| == 3
    ensures Lights(k, c, rgbc, ir0, v, ls)
    ensures ls[0] == Coloured(k, c, rgbc, ir0, v[0]) && ls[1] == Coloured(k, c, rgbc, ir0, v[1])
    ensures ls[2] == Coloured(k, c, rgbc, ir0, v[2])
  {
  }

  /** The error register of the triple operation is contained in the union of the single ones.  For the tinted form
      it is the whole union; for the others exactly if every component that leaves 0 to 0x7fff in the first two
      colours leaves its limits in the last colour, or earlier on the way to one of the three. */
  lemma NctFlagExact(k: Kind, c: Control, rgbc: Color, ir0: int, v: seq<Vec>)
    requires |v| == 3
    ensures var all := NcFlag(k, c, rgbc, ir0, v[0]) + NcFlag(k, c, rgbc, ir0, v[1]) + NcFlag(k, c, rgbc, ir0, v[2]);
            var three := NctFlag(k, c, rgbc, ir0, v);
            && three <= all
            && (three == all <==> k == Tinted || LimitsShown(k, c, rgbc, ir0, v))
  {
    var ls := AllColoured(k, c, rgbc, ir0, v);
    AllLight(k, c, rgbc, ir0, v, ls);
    assert k == Tinted || Among(k, ls) <==> k == Tinted || LimitsShown(k, c, rgbc, ir0, v) by {
      if k != Tinted {
        ColourBitsAre(k, c, rgbc, ir0, v[0]);
        ColourBitsAre(k, c, rgbc, ir0, v[1]);
        ColourBitsAre(k, c, rgbc, ir0, v[2]);
        LimitsLost(k, c, rgbc, v, ls[0], ls[1], ls[2]);
      }
    }
    UnionOfLits(k, ls);
  }

  const NONE: Vec := Vec(0, 0, 0)

  /** Only the first row of light and light colours does anything. */
  ghost predicate OneLight(c: Control) {
    && c.light == Matrix(Vec(4096, 0, 0), NONE, NONE) && c.lightColor == Matrix(Vec(4096, 0, 0), NONE, NONE)
  }

  lemma OneLightDot(x: int)
    ensures Dot(Vec(4096, 0, 0), Vec(x, 0, 0)) == 4096 * x && Dot(NONE, Vec(x, 0, 0)) == 0
  {
  }

  lemma OneLightIs(c: Control, x: int)
    requires OneLight(c) && 0 <= x <= 0x7fff && c.back.y == 0 == c.back.z
    ensures Light(c, Vec(x, 0, 0)) == Vec(x, 0, 0)
    ensures Shade(c, Vec(x, 0, 0)) == Vec(c.back.x + x, 0, 0)
  {
    OneLightDot(x);
    assert LimB(Vec(x, 0, 0), true) == Vec(x, 0, 0);
    assert Shr(4096 * c.back.x + 4096 * x, 12) == c.back.x + x;
  }

  /** A normal's colour is `colour`, and nothing is out of limits on the way to its red. */
  ghost predicate OnlyAtTheEnd(k: Kind, c: Control, rgbc: Color, ir0: int, v: Vec, colour: Vec) {
    ColourOf(k, c, rgbc, ir0, v) == colour && !OutsideOnTheWay(k, c, rgbc, v).x
  }

  ghost predicate WithinLimits(k: Kind, c: Control, rgbc: Color, ir0: int, v: Vec) {
    !Outside(ColourOf(k, c, rgbc, ir0, v), true).x && !OutsideOnTheWay(k, c, rgbc, v).x
  }

  /** What the errors of three normals come to when none of them is out of limits on the way, and only the first
      one's colour is at the end. */
  lemma OneLimitLost(k: Kind, c: Control, rgbc: Color, ir0: int, v: Vec, far: int)
    requires k != Tinted && far > 0x7fff
    requires OnlyAtTheEnd(k, c, rgbc, ir0, v, Vec(far, 0, 0)) && WithinLimits(k, c, rgbc, ir0, NONE)
    ensures 24 in NcFlag(k, c, rgbc, ir0, v) && 24 !in NctFlag(k, c, rgbc, ir0, [v, NONE, NONE])
  {
    ColourBitsAre(k, c, rgbc, ir0, v);
    ColourBitsAre(k, c, rgbc, ir0, NONE);
    LimBBitsAre(ColourOf(k, c, rgbc, ir0, v), true);
    LimBBitsAre(ColourOf(k, c, rgbc, ir0, NONE), true);
  }

  /** A colour and its marks from the light on a normal and the light over the background. */
  lemma PlainColour(c: Control, rgbc: Color, ir0: int, v: Vec, light: Vec, shade: Vec)
    requires Light(c, v) == light && Shade(c, v) == shade
    ensures ColourOf(Plain, c, rgbc, ir0, v) == Truncated(shade)
    ensures OutsideOnTheWay(Plain, c, rgbc, v) == Outside(light, true)
  {
  }

  lemma FadedColour(c: Control, rgbc: Color, ir0: int, v: Vec, light: Vec, shade: Vec)
    requires Light(c, v) == light && Truncated(Shade(c, v)) == shade == LimB(shade, true)
    ensures ColourOf(Faded, c, rgbc, ir0, v) == Fade(c, rgbc, ir0, shade)
    ensures OutsideOnTheWay(Faded, c, rgbc, v) ==
            Either(Either(Outside(light, true), Outside(shade, true)),
                   Outside(Truncated(Distance(c.far, Tint(rgbc, shade))), false))
  {
  }

  lemma RedInRange(x: int)
    requires -0x8000 <= x <= 0xffff
    ensures Truncated(Vec(x, 0, 0)) == Vec(x, 0, 0)
    ensures Outside(Vec(x, 0, 0), true).x <==> x > 0x7fff || x < 0
    ensures 0 <= x <= 0x7fff ==> LimB(Vec(x, 0, 0), true) == Vec(x, 0, 0)
  {
  }

  lemma PlainWitness(c: Control, rgbc: Color, ir0: int, v: Vec, x: int)
    requires OneLight(c) && c.back == Vec(0x4000, 0, 0) && v == Vec(x, 0, 0) && 0 <= x <= 0x7fff
    ensures ColourOf(Plain, c, rgbc, ir0, v) == Vec(0x4000 + x, 0, 0)
    ensures Outside(ColourOf(Plain, c, rgbc, ir0, v), true).x <==> x >= 0x4000
    ensures !OutsideOnTheWay(Plain, c, rgbc, v).x
  {
    OneLightIs(c, x);
    PlainColour(c, rgbc, ir0, v, v, Vec(0x4000 + x, 0, 0));
    RedInRange(x);
    RedInRange(0x4000 + x);
  }

  lemma PlainBeyond(c: Control, rgbc: Color, ir0: int, v: Vec)
    requires OneLight(c) && c.back == Vec(0x4000, 0, 0) && v == Vec(0x7fff, 0, 0)
    ensures OnlyAtTheEnd(Plain, c, rgbc, ir0, v, Vec(0xbfff, 0, 0))
  {
    PlainWitness(c, rgbc, ir0, v, 0x7fff);
  }

  lemma PlainToNone(c: Control, rgbc: Color, ir0: int, v: Vec)
    requires OneLight(c) && c.back == Vec(0x4000, 0, 0) && v == Vec(0, 0, 0)
    ensures WithinLimits(Plain, c, rgbc, ir0, v)
  {
    PlainWitness(c, rgbc, ir0, v, 0);
  }

  lemma PlainPair(c: Control, rgbc: Color, ir0: int, v: Vec)
    requires OneLight(c) && c.back == Vec(0x4000, 0, 0) && v == Vec(0x7fff, 0, 0)
    ensures OnlyAtTheEnd(Plain, c, rgbc, ir0, v, Vec(0xbfff, 0, 0)) && WithinLimits(Plain, c, rgbc, ir0, NONE)
  {
    PlainBeyond(c, rgbc, ir0, v);
    PlainToNone(c, rgbc, ir0, NONE);
  }

  /** Three normals of which the first alone is lit beyond the limit over the background: the single operation
      reports it, the triple one does not. */
  lemma NctLosesLimit(c: Control, rgbc: Color, ir0: int, v: Vec)
    requires OneLight(c) && c.back == Vec(0x4000, 0, 0) && v == Vec(0x7fff, 0, 0)
    ensures 24 in NcFlag(Plain, c, rgbc, ir0, v) && 24 !in NctFlag(Plain, c, rgbc, ir0, [v, NONE, NONE])
  {
    PlainPair(c, rgbc, ir0, v);
    OneLimitLost(Plain, c, rgbc, ir0, v, 0xbfff);
  }

  lemma ZeroTint(rgbc: Color)
    ensures rgbc.g * 0 == 0 == rgbc.b * 0 && rgbc.g * 16 * 0 == 0 == rgbc.b * 16 * 0
  {
  }

  /** Fading from the vertex colour by the red light `x` towards a black far colour, with a negative factor. */
  lemma FadeAway(c: Control, rgbc: Color, x: int, tint: int)
    requires c.far == NONE && 0 <= x <= 0x4000 && tint == Shr(255 * x, 8) && rgbc.r == 255
    ensures Tint(rgbc, Vec(x, 0, 0)) == Vec(tint, 0, 0)
    ensures Fade(c, rgbc, -0x4000, Vec(x, 0, 0)) == Vec(Shr(4080 * x + 0x4000 * tint, 12), 0, 0)
    ensures !Outside(Truncated(Distance(c.far, Vec(tint, 0, 0))), false).x
  {
    ZeroTint(rgbc);
    assert Distance(c.far, Vec(tint, 0, 0)) == Vec(-tint, 0, 0);
    assert LimB(Truncated(Vec(-tint, 0, 0)), false) == Vec(-tint, 0, 0);
  }

  lemma FadedWitness(c: Control, rgbc: Color, v: Vec, x: int, tint: int, far: int)
    requires OneLight(c) && c.back == NONE && c.far == NONE && v == Vec(x, 0, 0) && 0 <= x <= 0x4000 && rgbc.r == 255
    requires tint == Shr(255 * x, 8) && far == Shr(4080 * x + 0x4000 * tint, 12)
    ensures ColourOf(Faded, c, rgbc, -0x4000, v) == Vec(far, 0, 0) && !OutsideOnTheWay(Faded, c, rgbc, v).x
    ensures Outside(ColourOf(Faded, c, rgbc, -0x4000, v), true).x <==> far > 0x7fff || far < 0
  {
    OneLightIs(c, x);
    RedInRange(x);
    FadedColour(c, rgbc, -0x4000, v, v, v);
    FadeAway(c, rgbc, x, tint);
  }

  lemma FadedBeyond(c: Control, rgbc: Color, v: Vec)
    requires OneLight(c) && c.back == NONE && c.far == NONE && v == Vec(0x4000, 0, 0) && rgbc.r == 255
    ensures OnlyAtTheEnd(Faded, c, rgbc, -0x4000, v, Vec(81600, 0, 0))
  {
    assert Shr(255 * 0x4000, 8) == 16320 && Shr(4080 * 0x4000 + 0x4000 * 16320, 12) == 81600;
    FadedWitness(c, rgbc, v, 0x4000, 16320, 81600);
  }

  lemma FadedToNone(c: Control, rgbc: Color, v: Vec)
    requires OneLight(c) && c.back == NONE && c.far == NONE && v == Vec(0, 0, 0) && rgbc.r == 255
    ensures WithinLimits(Faded, c, rgbc, -0x4000, v)
  {
    assert Shr(255 * 0, 8) == 0 && Shr(4080 * 0 + 0x4000 * 0, 12) == 0;
    FadedWitness(c, rgbc, v, 0, 0, 0);
  }

  lemma FadedPair(c: Control, rgbc: Color, v: Vec)
    requires OneLight(c) && c.back == NONE && c.far == NONE && v == Vec(0x4000, 0, 0) && rgbc.r == 255
    ensures OnlyAtTheEnd(Faded, c, rgbc, -0x4000, v, Vec(81600, 0, 0)) && WithinLimits(Faded, c, rgbc, -0x4000, NONE)
  {
    FadedBeyond(c, rgbc, v);
    FadedToNone(c, rgbc, NONE);
  }

  /** The same for fading: the first colour alone is carried beyond the limit, away from a black far colour. */
  lemma NcdtLosesLimit(c: Control, rgbc: Color, v: Vec)
    requires OneLight(c) && c.back == NONE && c.far == NONE && v == Vec(0x4000, 0, 0) && rgbc.r == 255
    ensures 24 in NcFlag(Faded, c, rgbc, -0x4000, v) && 24 !in NctFlag(Faded, c, rgbc, -0x4000, [v, NONE, NONE])
  {
    FadedPair(c, rgbc, v);
    OneLimitLost(Faded, c, rgbc, -0x4000, v, 81600);
  }

  // ---------------------------------------------------------------------------
  // What the values mean
  // ---------------------------------------------------------------------------

  function Abs(x: int): nat {
    if x < 0 then -x else x
  }

  /** No value between the limits is nearer than the limited one. */
  lemma LimitedIsNearest(x: int, max: int, min: int, y: int)
    requires min <= y <= max
    ensures min <= Limited(x, max, min) <= max && Abs(x - Limited(x, max, min)) <= Abs(x - y)
  {
  }

  /** A register holds the one 32-bit value that differs by a multiple of 2^32. */
  lemma ToS32Is(x: int)
    ensures -0x8000_0000 <= ToS32(x) < 0x8000_0000 && (x - ToS32(x)) % 0x1_0000_0000 == 0
  {
    var q := (x + 0x8000_0000) / 0x1_0000_0000;
    assert x - ToS32(x) == 0x1_0000_0000 * q;
  }

  /** `v` is `exact`, in 1/4096, rounded down. */
  predicate Fixed(v: int, exact: int) {
    4096 * v <= exact < 4096 * v + 4096
  }

  /** A vector is moved by the rows of the matrix and the translation. */
  lemma MovedIs(t: Vec, m: Matrix, v: Vec)
    ensures var r := Moved(t, m, v);
            && Fixed(r.x, 4096 * t.x + m.r1.x * v.x + m.r1.y * v.y + m.r1.z * v.z)
            && Fixed(r.y, 4096 * t.y + m.r2.x * v.x + m.r2.y * v.y + m.r2.z * v.z)
            && Fixed(r.z, 4096 * t.z + m.r3.x * v.x + m.r3.y * v.y + m.r3.z * v.z)
  {
  }

  lemma Products(a: nat, b: nat, z: nat)
    requires a <= b
    ensures a * z <= b * z
  {
  }

  lemma ProductBelow(q: nat, d: nat, k: nat)
    requires q * d < k * d
    ensures q < k
  {
    if k <= q { Products(k, q, d); }
  }

  lemma DivideIs(n: nat, d: nat)
    requires n < 2 * d
    ensures var q := n * 65536 / d; q * d <= 65536 * n < q * d + d && q <= 0x1ffff
  {
    var q := n * 65536 / d;
    assert 65536 * n == q * d + n * 65536 % d;
    ProductBelow(q, d, 0x20000);
  }

  /** The quotient is that of the screen's distance and the vertex's, in 1/65536, short of two. */
  lemma QuotientIs(c: Control, z: nat)
    ensures var q := Quotient(c, z);
            if c.h < 2 * z then q * z <= 65536 * c.h < q * z + z else q == 0x1ffff
  {
    if c.h < 2 * z { DivideIs(c.h, z); }
  }

  /** A screen coordinate is `exact`, in 1/65536, rounded down, but for the limits. */
  predicate OnScreen(x: int, exact: int) {
    -0x400 <= x <= 0x3ff && (x > -0x400 ==> 65536 * x <= exact) && (x < 0x3ff ==> exact < 65536 * x + 65536)
  }

  lemma ScreenIs(c: Control, ir: Vec, q: nat)
    ensures OnScreen(ScreenAt(c, ir, q).x, c.ofx + ir.x * q) && OnScreen(ScreenAt(c, ir, q).y, c.ofy + ir.y * q)
  {
  }

  /** `x`, on the screen, is within two points of `of` plus `h / z` of `v`, for values of 16 bits. */
  predicate InPerspective(x: int, of: int, h: int, z: int, v: int) {
    Abs(z * (65536 * x - of) - 65536 * h * v) <= z * (65536 + Abs(v))
  }

  lemma ProductNear(g: nat, z: nat, v: int)
    requires g <= z
    ensures Abs(g * v) <= z * Abs(v)
  {
    Products(g, z, Abs(v));
    assert Abs(g * v) == g * Abs(v);
  }

  /** `z x`, with `x = v q - f`, and `q z` replaced. */
  lemma PerspectiveSum(x: int, z: int, v: int, q: int, f: int, g: int, h: int)
    requires x == v * q - f && q * z == 65536 * h - g
    ensures z * x - 65536 * h * v == -(z * f) - g * v
  {
    assert z * x == z * (v * q) - z * f;
    assert z * (v * q) == q * z * v;
    assert (65536 * h - g) * v == 65536 * h * v - g * v;
  }

  lemma PerspectiveBound(a: int, b: int, fz: int, gv: int, z: nat, v: nat)
    requires a - b == -fz - gv && 0 <= fz <= 65536 * z && Abs(gv) <= z * v
    ensures Abs(a - b) <= z * (65536 + v)
  {
    assert z * (65536 + v) == 65536 * z + z * v;
  }

  lemma PerspectiveAt(x: int, of: int, h: nat, z: nat, v: int, q: nat)
    requires 65536 * x <= of + v * q < 65536 * x + 65536 && q * z <= 65536 * h < q * z + z
    ensures InPerspective(x, of, h, z, v)
  {
    var f, g := of + v * q - 65536 * x, 65536 * h - q * z;
    PerspectiveSum(65536 * x - of, z, v, q, f, g, h);
    ProductNear(f, 65536, z);
    ProductNear(g, z, v);
    PerspectiveBound(z * (65536 * x - of), 65536 * h * v, f * z, g * v, z, Abs(v));
  }

  /** A vertex beyond half the screen's distance appears in perspective, unless a limit of the screen is reached. */
  lemma ProjectIsPerspective(c: Control, v: Vec)
    ensures var p := Project(c, v);
            c.h < 2 * p.sz ==>
              && (-0x400 < p.sxy.x < 0x3ff ==> InPerspective(p.sxy.x, c.ofx, c.h, p.sz, p.ir.x))
              && (-0x400 < p.sxy.y < 0x3ff ==> InPerspective(p.sxy.y, c.ofy, c.h, p.sz, p.ir.y))
  {
    var p := Project(c, v);
    QuotientIs(c, p.sz);
    ScreenIs(c, p.ir, p.quotient);
    hide Quotient, ScreenAt, InPerspective, Moved, LimB, Truncated;
    if c.h < 2 * p.sz && -0x400 < p.sxy.x < 0x3ff {
      PerspectiveAt(p.sxy.x, c.ofx, c.h, p.sz, p.ir.x, p.quotient);
    }
    if c.h < 2 * p.sz && -0x400 < p.sxy.y < 0x3ff {
      PerspectiveAt(p.sxy.y, c.ofy, c.h, p.sz, p.ir.y, p.quotient);
    }
  }

  /** The depth cue a vertex leaves, in 1/4096, within its limits, and the register it comes from. */
  lemma CueIs(c: Control, d: Data, v: Vec)
    requires Shaped(d)
    ensures var r, cue := Rtps(c, d, v), c.dqb + c.dqa * Project(c, v).quotient;
            && 0 <= r.ir0 <= 0x1000
            && (r.ir0 > 0 ==> 4096 * r.ir0 <= cue) && (r.ir0 < 0x1000 ==> cue < 4096 * r.ir0 + 4096)
            && -0x8000_0000 <= r.mac0 < 0x8000_0000 && (cue - r.mac0) % 0x1_0000_0000 == 0
  {
    hide Project;
    ToS32Is(c.dqb + c.dqa * Project(c, v).quotient);
    hide ToS32;
  }

  predicate Above(x: int) {
    x > 0x7fff_ffff
  }

  predicate Below(x: int) {
    x < -0x8000_0000
  }

  predicate Out16(x: int) {
    x > 0x7fff || x < -0x8000
  }

  predicate OffScreen(exact: int) {
    exact >= 65536 * 0x400 || exact < -65536 * 0x400
  }

  /** The bits of the error register but for the last, each by what it reports: an overflow of a moved component
      upwards or downwards, a component out of 16 bits, the depth out of its limits, the quotient, a screen coordinate
      or the depth cue. */
  ghost predicate ReportsVertex(bits: set<nat>, c: Control, m: Vec, p: Projected) {
    var x, y, cue := c.ofx + p.ir.x * p.quotient, c.ofy + p.ir.y * p.quotient, c.dqb + c.dqa * p.quotient;
    && (30 in bits <==> Above(m.x)) && (29 in bits <==> Above(m.y)) && (28 in bits <==> Above(m.z))
    && (27 in bits <==> Below(m.x)) && (26 in bits <==> Below(m.y)) && (25 in bits <==> Below(m.z))
    && (24 in bits <==> Out16(p.mac.x)) && (23 in bits <==> Out16(p.mac.y)) && (22 in bits <==> Out16(p.mac.z))
    && (18 in bits <==> p.mac.z > 0xffff || p.mac.z < 0) && (17 in bits <==> c.h >= 2 * p.sz)
    && (16 in bits <==> Above(x) || Above(y) || Above(cue)) && (15 in bits <==> Below(x) || Below(y) || Below(cue))
    && (14 in bits <==> OffScreen(x)) && (13 in bits <==> OffScreen(y))
    && (12 in bits <==> cue >= 0x1001 * 4096 || cue < 0)
  }

  /** Bit 31 sums up bits 13 to 18 and 23 to 27, so not an overflow upwards, the third component or the depth cue. */
  ghost predicate SummedUp(bits: set<nat>) {
    31 in bits <==> exists n :: n in bits && (13 <= n <= 18 || 23 <= n <= 27)
  }

  lemma SumOfTwo(a: set<nat>, b: set<nat>)
    requires SummedUp(a) && SummedUp(b)
    ensures SummedUp(a + b)
  {
    if n :| n in a && (13 <= n <= 18 || 23 <= n <= 27) { assert n in a + b; }
    if n :| n in b && (13 <= n <= 18 || 23 <= n <= 27) { assert n in a + b; }
  }

  /** A bit that bit 31 sums up, set with it, or a bit that it does not, or none. */
  lemma SumOfOne(bits: set<nat>, n: nat)
    requires bits == {} || (bits == {31, n} && (13 <= n <= 18 || 23 <= n <= 27))
             || (bits == {n} && !(13 <= n <= 18 || 23 <= n <= 27 || n == 31))
    ensures SummedUp(bits)
  {
    if bits == {31, n} { assert n in bits; }
  }

  lemma SumOfThree(a: set<nat>, b: set<nat>, c: set<nat>)
    requires SummedUp(a) && SummedUp(b) && SummedUp(c)
    ensures SummedUp(a + b + c)
  {
    SumOfTwo(a, b);
    SumOfTwo(a + b, c);
  }

  lemma BoundsASum(x: int, high: nat, low: nat)
    requires 28 <= high <= 30 && 25 <= low <= 27
    ensures SummedUp(BoundsBits(x, {high}, {31, low}))
  {
    SumOfOne(BoundsBits(x, {high}, {31, low}), if Above(x) then high else low);
  }

  lemma BoundsFSum(x: int)
    ensures SummedUp(BoundsFBits(x))
  {
    SumOfOne(BoundsFBits(x), if Above(x) then 16 else 15);
  }

  lemma BoundsABitsAre(m: Vec)
    ensures var bits := BoundsABits(m);
            && bits <= {25, 26, 27, 28, 29, 30, 31} && SummedUp(bits)
            && (30 in bits <==> Above(m.x)) && (29 in bits <==> Above(m.y)) && (28 in bits <==> Above(m.z))
            && (27 in bits <==> Below(m.x)) && (26 in bits <==> Below(m.y)) && (25 in bits <==> Below(m.z))
  {
    hide SummedUp;
    BoundsASum(m.x, 30, 27);
    BoundsASum(m.y, 29, 26);
    BoundsASum(m.z, 28, 25);
    SumOfThree(BoundsBits(m.x, {30}, {31, 27}), BoundsBits(m.y, {29}, {31, 26}), BoundsBits(m.z, {28}, {31, 25}));
  }

  lemma LimBSum(m: Vec, lm: bool)
    ensures SummedUp(LimBBits(m, lm))
  {
    hide SummedUp;
    var min := if lm then 0 else -0x8000;
    SumOfOne(LimBits(m.x, 0x7fff, min, {31, 24}), 24);
    SumOfOne(LimBits(m.y, 0x7fff, min, {31, 23}), 23);
    SumOfOne(LimBits(m.z, 0x7fff, min, {22}), 22);
    SumOfThree(LimBits(m.x, 0x7fff, min, {31, 24}), LimBits(m.y, 0x7fff, min, {31, 23}),
               LimBits(m.z, 0x7fff, min, {22}));
  }

  lemma DepthBitsAre(c: Control, z: int)
    ensures var bits := DepthBits(c, z);
            && bits <= {17, 18, 31} && SummedUp(bits)
            && (18 in bits <==> z > 0xffff || z < 0) && (17 in bits <==> c.h >= 2 * Limited(z, 0xffff, 0))
  {
    QuotientIs(c, Limited(z, 0xffff, 0));
    var a, b := LimBits(z, 0xffff, 0, {31, 18}), if Divide(c.h, Limited(z, 0xffff, 0)) > 0x1ffff then {31, 17} else {};
    hide SummedUp, Divide;
    SumOfOne(a, 18);
    SumOfOne(b, 17);
    SumOfTwo(a, b);
  }

  lemma ScreenSum(c: Control, ir: Vec, q: nat)
    ensures var bits := ScreenBits(c, ir, q);
            && bits <= {13, 14, 15, 16, 31} && SummedUp(bits)
            && (16 in bits <==> Above(c.ofx + ir.x * q) || Above(c.ofy + ir.y * q))
            && (15 in bits <==> Below(c.ofx + ir.x * q) || Below(c.ofy + ir.y * q))
            && (14 in bits <==> OffScreen(c.ofx + ir.x * q)) && (13 in bits <==> OffScreen(c.ofy + ir.y * q))
  {
    var x, y := c.ofx + ir.x * q, c.ofy + ir.y * q;
    var a, b := LimBits(Shr(x, 16), 0x3ff, -0x400, {31, 14}), LimBits(Shr(y, 16), 0x3ff, -0x400, {31, 13});
    hide SummedUp;
    BoundsFSum(x);
    BoundsFSum(y);
    SumOfOne(a, 14);
    SumOfOne(b, 13);
    SumOfThree(BoundsFBits(x), a, BoundsFBits(y));
    SumOfTwo(BoundsFBits(x) + a + BoundsFBits(y), b);
  }

  lemma CueSum(c: Control, q: nat)
    ensures SummedUp(CueBits(c, q)) && CueBits(c, q) <= {12, 15, 16, 31}
    ensures 16 in CueBits(c, q) <==> Above(c.dqb + c.dqa * q)
    ensures 15 in CueBits(c, q) <==> Below(c.dqb + c.dqa * q)
    ensures 12 in CueBits(c, q) <==> c.dqb + c.dqa * q >= 0x1001 * 4096 || c.dqb + c.dqa * q < 0
  {
    var a := LimBits(Shr(Cue(c, q), 12), 0x1000, 0, {12});
    hide SummedUp;
    BoundsFSum(Cue(c, q));
    SumOfOne(a, 12);
    SumOfTwo(BoundsFBits(Cue(c, q)), a);
  }

  lemma Out16BitsAre(m: Vec)
    ensures var bits := LimBBits(m, false);
            && bits <= {22, 23, 24, 31} && SummedUp(bits)
            && (24 in bits <==> Out16(m.x)) && (23 in bits <==> Out16(m.y)) && (22 in bits <==> Out16(m.z))
  {
    LimBSum(m, false);
    LimBBitsAre(m, false);
    hide SummedUp, LimBBits;
  }

  lemma RtpsFlagParts(c: Control, v: Vec)
    ensures var m, p := Moved(c.tr, c.rot, v), Project(c, v);
            && RtpsFlag(c, v) == BoundsABits(m) + LimBBits(p.mac, false) + DepthBits(c, p.mac.z)
                                 + ScreenBits(c, p.ir, p.quotient) + CueBits(c, p.quotient)
            && p.sz == Limited(p.mac.z, 0xffff, 0)
  {
    hide BoundsABits, LimBBits, DepthBits, ScreenBits, CueBits, Moved, LimB, Truncated, Limited, Quotient, ScreenAt;
  }

  lemma BitsOfSum(a: set<nat>, b: set<nat>, d: set<nat>, s: set<nat>, cue: set<nat>)
    requires a <= {25, 26, 27, 28, 29, 30, 31} && b <= {22, 23, 24, 31} && d <= {17, 18, 31}
    requires s <= {13, 14, 15, 16, 31} && cue <= {12, 15, 16, 31}
    ensures var all := a + b + d + s + cue;
            && (30 in all <==> 30 in a) && (29 in all <==> 29 in a) && (28 in all <==> 28 in a)
            && (27 in all <==> 27 in a) && (26 in all <==> 26 in a) && (25 in all <==> 25 in a)
            && (24 in all <==> 24 in b) && (23 in all <==> 23 in b) && (22 in all <==> 22 in b)
            && (18 in all <==> 18 in d) && (17 in all <==> 17 in d)
            && (16 in all <==> 16 in s || 16 in cue) && (15 in all <==> 15 in s || 15 in cue)
            && (14 in all <==> 14 in s) && (13 in all <==> 13 in s) && (12 in all <==> 12 in cue)
  {
  }

  lemma SumOfFive(a: set<nat>, b: set<nat>, d: set<nat>, s: set<nat>, cue: set<nat>)
    requires SummedUp(a) && SummedUp(b) && SummedUp(d) && SummedUp(s) && SummedUp(cue)
    ensures SummedUp(a + b + d + s + cue)
  {
    hide SummedUp;
    SumOfThree(a, b, d);
    SumOfThree(a + b + d, s, cue);
  }

  /** The error register of a single projection, bit by bit. */
  lemma RtpsFlagIs(c: Control, v: Vec)
    ensures ReportsVertex(RtpsFlag(c, v), c, Moved(c.tr, c.rot, v), Project(c, v)) && SummedUp(RtpsFlag(c, v))
  {
    hide SummedUp, BoundsABits, LimBBits, DepthBits, ScreenBits, CueBits, Project, RtpsFlag, Moved, Above, Below, Out16,
         OffScreen, Limited;
    var m, p := Moved(c.tr, c.rot, v), Project(c, v);
    RtpsFlagParts(c, v);
    BoundsABitsAre(m);
    Out16BitsAre(p.mac);
    DepthBitsAre(c, p.mac.z);
    ScreenSum(c, p.ir, p.quotient);
    CueSum(c, p.quotient);
    BitsOfSum(BoundsABits(m), LimBBits(p.mac, false), DepthBits(c, p.mac.z), ScreenBits(c, p.ir, p.quotient),
              CueBits(c, p.quotient));
    SumOfFive(BoundsABits(m), LimBBits(p.mac, false), DepthBits(c, p.mac.z), ScreenBits(c, p.ir, p.quotient),
              CueBits(c, p.quotient));
  }

  /** Three vertices fill the screen queue in their order, and the depth queue after the newest depth before. */
  lemma ThreeProjected(c: Control, d: Data, v: seq<Vec>)
    requires Shaped(d) && |v| == 3
    ensures var r := Rtps(c, Rtps(c, Rtps(c, d, v[0]), v[1]), v[2]);
            && r.sxy == [Project(c, v[0]).sxy, Project(c, v[1]).sxy, Project(c, v[2]).sxy]
            && r.sz == [d.sz[3], Project(c, v[0]).sz, Project(c, v[1]).sz, Project(c, v[2]).sz]
  {
    hide Project;
  }

  /** A colour byte is `x`, in sixteenths, rounded down, but for the limits. */
  predicate ByteOf(b: int, x: int) {
    0 <= b <= 0xff && (b > 0 ==> 16 * b <= x) && (b < 0xff ==> x < 16 * b + 16)
  }

  lemma LimCIs(m: Vec, code: int)
    ensures var l := LimC(m, code); ByteOf(l.r, m.x) && ByteOf(l.g, m.y) && ByteOf(l.b, m.z) && l.code == code
  {
  }

  /** A component kept within 0 to 0x7fff. */
  predicate Kept(r: int, x: int) {
    0 <= r <= 0x7fff && (0 <= x <= 0x7fff ==> r == x) && (x < 0 ==> r == 0) && (x > 0x7fff ==> r == 0x7fff)
  }

  /** A single colour operation leaves the colour in the registers, only the tinted one without its limits, and its
      bytes as the newest of the colour queue. */
  lemma NcIs(k: Kind, c: Control, rgbc: Color, d: Data, v: Vec)
    requires Shaped(d)
    ensures var r, m := Nc(k, c, rgbc, d, v), ColourOf(k, c, rgbc, d.ir0, v);
            && r.mac == m && r.rgb[..2] == d.rgb[1..] && r.rgb[2].code == rgbc.code
            && ByteOf(r.rgb[2].r, m.x) && ByteOf(r.rgb[2].g, m.y) && ByteOf(r.rgb[2].b, m.z)
            && if k == Tinted then r.ir == m else Kept(r.ir.x, m.x) && Kept(r.ir.y, m.y) && Kept(r.ir.z, m.z)
  {
    hide Coloured;
    LimCIs(ColourOf(k, c, rgbc, d.ir0, v), rgbc.code);
    hide Shr, ByteOf;
  }

  /** The light on a normal is moved, within its limits, into the background by the light's colours. */
  lemma ShadeIs(c: Control, v: Vec)
    ensures var l, s := Light(c, v), Shade(c, v);
            && Fixed(l.x, c.light.r1.x * v.x + c.light.r1.y * v.y + c.light.r1.z * v.z)
            && Fixed(l.y, c.light.r2.x * v.x + c.light.r2.y * v.y + c.light.r2.z * v.z)
            && Fixed(l.z, c.light.r3.x * v.x + c.light.r3.y * v.y + c.light.r3.z * v.z)
            && var x, y, z := Limited(l.x, 0x7fff, 0), Limited(l.y, 0x7fff, 0), Limited(l.z, 0x7fff, 0);
               && Fixed(s.x, 4096 * c.back.x + c.lightColor.r1.x * x + c.lightColor.r1.y * y + c.lightColor.r1.z * z)
               && Fixed(s.y, 4096 * c.back.y + c.lightColor.r2.x * x + c.lightColor.r2.y * y + c.lightColor.r2.z * z)
               && Fixed(s.z, 4096 * c.back.z + c.lightColor.r3.x * x + c.lightColor.r3.y * y + c.lightColor.r3.z * z)
  {
    MovedIs(Vec(0, 0, 0), c.light, v);
    MovedIs(c.back, c.lightColor, LimB(Light(c, v), true));
    hide Shr, Dot, Limited, Fixed;
  }

  /** A tinted component is the vertex colour's times the light's, in 1/256, rounded down. */
  lemma TintIs(rgbc: Color, ir: Vec)
    ensures var t := Tint(rgbc, ir);
            && 256 * t.x <= rgbc.r * ir.x < 256 * t.x + 256
            && 256 * t.y <= rgbc.g * ir.y < 256 * t.y + 256
            && 256 * t.z <= rgbc.b * ir.z < 256 * t.z + 256
  {
  }

  predicate OutOfByte(x: int) {
    x >= 4096 || x < 0
  }

  /** The components out of 32 bits on the way to a normal's colour: of the light over the background, and, where that
      is checked, of the distance to the far colour. */
  function OverflowsOnTheWay(k: Kind, c: Control, rgbc: Color, v: Vec, above: bool): Marks {
    var s, d := Shade(c, v), Distance(c.far, Tint(rgbc, LimB(Truncated(Shade(c, v)), true)));
    var shade := if above then Marks(Above(s.x), Above(s.y), Above(s.z)) else Marks(Below(s.x), Below(s.y), Below(s.z));
    var far := if above then Marks(Above(d.x), Above(d.y), Above(d.z)) else Marks(Below(d.x), Below(d.y), Below(d.z));
    if k == Faded && c.paranoid then Either(shade, far) else shade
  }

  /** Three bits stand for the three components. */
  ghost predicate ShownBy(bits: set<nat>, x: nat, y: nat, z: nat, m: Marks) {
    (x in bits <==> m.x) && (y in bits <==> m.y) && (z in bits <==> m.z)
  }

  lemma LimCBitsAre(m: Vec)
    ensures LimCBits(m) <= {19, 20, 21} && SummedUp(LimCBits(m))
    ensures ShownBy(LimCBits(m), 21, 20, 19, Marks(OutOfByte(m.x), OutOfByte(m.y), OutOfByte(m.z)))
  {
    if n :| n in LimCBits(m) && (13 <= n <= 18 || 23 <= n <= 27) { assert false; }
  }

  lemma ShadeSum(c: Control, v: Vec)
    ensures var bits, s := ShadeBits(c, v), Shade(c, v);
            && bits <= {22, 23, 24, 25, 26, 27, 28, 29, 30, 31} && SummedUp(bits)
            && ShownBy(bits, 30, 29, 28, Marks(Above(s.x), Above(s.y), Above(s.z)))
            && ShownBy(bits, 27, 26, 25, Marks(Below(s.x), Below(s.y), Below(s.z)))
  {
    hide SummedUp, LimBBits, BoundsABits, Light, Shade;
    LimBSum(Light(c, v), true);
    LimBBitsAre(Light(c, v), true);
    BoundsABitsAre(Shade(c, v));
    SumOfTwo(LimBBits(Light(c, v), true), BoundsABits(Shade(c, v)));
  }

  lemma FadeSum(c: Control, rgbc: Color, ir: Vec)
    ensures var bits, d := FadeBits(c, rgbc, ir), Distance(c.far, Tint(rgbc, ir));
            && bits <= {22, 23, 24, 25, 26, 27, 28, 29, 30, 31} && SummedUp(bits)
            && ShownBy(bits, 30, 29, 28,
                       Marks(c.paranoid && Above(d.x), c.paranoid && Above(d.y), c.paranoid && Above(d.z)))
            && ShownBy(bits, 27, 26, 25,
                       Marks(c.paranoid && Below(d.x), c.paranoid && Below(d.y), c.paranoid && Below(d.z)))
  {
    var d := Distance(c.far, Tint(rgbc, ir));
    var bounds := if c.paranoid then BoundsABits(d) else {};
    hide SummedUp, LimBBits, BoundsABits, Distance, Tint, Truncated;
    LimBSum(Truncated(d), false);
    LimBBitsAre(Truncated(d), false);
    BoundsABitsAre(d);
    SumOfOne({}, 0);
    SumOfTwo(bounds, LimBBits(Truncated(d), false));
  }

  /** The error register of a single colour operation, bit by bit. */
  ghost predicate ReportsColour(bits: set<nat>, k: Kind, c: Control, rgbc: Color, ir0: int, v: Vec) {
    var colour := ColourOf(k, c, rgbc, ir0, v);
    && ShownBy(bits, 30, 29, 28, OverflowsOnTheWay(k, c, rgbc, v, true))
    && ShownBy(bits, 27, 26, 25, OverflowsOnTheWay(k, c, rgbc, v, false))
    && ShownBy(bits, 24, 23, 22, if k == Tinted then OutsideOnTheWay(k, c, rgbc, v)
                                 else Either(OutsideOnTheWay(k, c, rgbc, v), Outside(colour, true)))
    && ShownBy(bits, 21, 20, 19, Marks(OutOfByte(colour.x), OutOfByte(colour.y), OutOfByte(colour.z)))
    && SummedUp(bits)
  }

  /** The bits set on the way to a colour. */
  function WayBits(k: Kind, c: Control, rgbc: Color, v: Vec): set<nat> {
    var mac := Truncated(Shade(c, v));
    match k
    case Plain => ShadeBits(c, v)
    case Tinted => ShadeBits(c, v) + LimBBits(mac, true)
    case Faded => ShadeBits(c, v) + LimBBits(mac, true) + FadeBits(c, rgbc, LimB(mac, true))
  }

  lemma ShownMore(a: set<nat>, m: Marks, b: set<nat>, n: Marks, x: nat, y: nat, z: nat)
    requires ShownBy(a, x, y, z, m) && ShownBy(b, x, y, z, n)
    ensures ShownBy(a + b, x, y, z, Either(m, n))
  {
  }

  lemma ShownAmong(a: set<nat>, m: Marks, b: set<nat>, x: nat, y: nat, z: nat)
    requires ShownBy(a, x, y, z, m) && x !in b && y !in b && z !in b
    ensures ShownBy(a + b, x, y, z, m)
  {
  }

  /** The bits set on the way to a tinted colour. */
  lemma TintedWay(c: Control, v: Vec)
    ensures var bits, s := ShadeBits(c, v) + LimBBits(Truncated(Shade(c, v)), true), Shade(c, v);
            && bits <= {22, 23, 24, 25, 26, 27, 28, 29, 30, 31} && SummedUp(bits)
            && ShownBy(bits, 30, 29, 28, Marks(Above(s.x), Above(s.y), Above(s.z)))
            && ShownBy(bits, 27, 26, 25, Marks(Below(s.x), Below(s.y), Below(s.z)))
  {
    hide SummedUp, LimBBits, ShadeBits, Shade, Truncated, Above, Below, ShownBy;
    var s, b := Shade(c, v), LimBBits(Truncated(Shade(c, v)), true);
    ShadeSum(c, v);
    LimBSum(Truncated(s), true);
    LimBBitsAre(Truncated(s), true);
    SumOfTwo(ShadeBits(c, v), b);
    ShownAmong(ShadeBits(c, v), Marks(Above(s.x), Above(s.y), Above(s.z)), b, 30, 29, 28);
    ShownAmong(ShadeBits(c, v), Marks(Below(s.x), Below(s.y), Below(s.z)), b, 27, 26, 25);
  }

  /** The bits set on the way to a faded colour. */
  lemma FadedWay(c: Control, rgbc: Color, v: Vec)
    ensures var bits := WayBits(Faded, c, rgbc, v);
            && bits <= {22, 23, 24, 25, 26, 27, 28, 29, 30, 31} && SummedUp(bits)
            && ShownBy(bits, 30, 29, 28, OverflowsOnTheWay(Faded, c, rgbc, v, true))
            && ShownBy(bits, 27, 26, 25, OverflowsOnTheWay(Faded, c, rgbc, v, false))
  {
    var s, mac := Shade(c, v), Truncated(Shade(c, v));
    var d, f := Distance(c.far, Tint(rgbc, LimB(mac, true))), FadeBits(c, rgbc, LimB(mac, true));
    hide SummedUp, LimBBits, ShadeBits, FadeBits, Shade, Tint, Distance, LimB, Truncated, Above, Below, ShownBy;
    TintedWay(c, v);
    FadeSum(c, rgbc, LimB(mac, true));
    var way, p := ShadeBits(c, v) + LimBBits(mac, true), c.paranoid;
    SumOfTwo(way, f);
    ShownMore(way, Marks(Above(s.x), Above(s.y), Above(s.z)), f,
              Marks(p && Above(d.x), p && Above(d.y), p && Above(d.z)), 30, 29, 28);
    ShownMore(way, Marks(Below(s.x), Below(s.y), Below(s.z)), f,
              Marks(p && Below(d.x), p && Below(d.y), p && Below(d.z)), 27, 26, 25);
  }

  lemma WayBitsAre(k: Kind, c: Control, rgbc: Color, ir0: int, v: Vec)
    ensures var bits := WayBits(k, c, rgbc, v);
            && Coloured(k, c, rgbc, ir0, v).bits == bits + LimCBits(ColourOf(k, c, rgbc, ir0, v))
            && bits <= {22, 23, 24, 25, 26, 27, 28, 29, 30, 31} && SummedUp(bits)
            && ShownBy(bits, 30, 29, 28, OverflowsOnTheWay(k, c, rgbc, v, true))
            && ShownBy(bits, 27, 26, 25, OverflowsOnTheWay(k, c, rgbc, v, false))
  {
    hide SummedUp, LimBBits, LimCBits, ShadeBits, FadeBits, Light, Shade, Fade, Tint, Distance, LimB, Truncated,
         Above, Below, ShownBy;
    match k {
      case Plain => ShadeSum(c, v);
      case Tinted => TintedWay(c, v);
      case Faded => FadedWay(c, rgbc, v);
    }
  }

  lemma ReportsSum(way: set<nat>, bytes: set<nat>, last: set<nat>, above: Marks, below: Marks, outside: Marks,
                   out: Marks, limits: Marks)
    requires way <= {22, 23, 24, 25, 26, 27, 28, 29, 30, 31} && bytes <= {19, 20, 21} && last <= {22, 23, 24, 31}
    requires ShownBy(way, 30, 29, 28, above) && ShownBy(way, 27, 26, 25, below) && ShownBy(way, 24, 23, 22, outside)
    requires ShownBy(bytes, 21, 20, 19, limits) && ShownBy(last, 24, 23, 22, out)
    requires SummedUp(way) && SummedUp(bytes) && SummedUp(last)
    ensures var bits := way + bytes + last;
            && ShownBy(bits, 30, 29, 28, above) && ShownBy(bits, 27, 26, 25, below) && SummedUp(bits)
            && ShownBy(bits, 24, 23, 22, Either(outside, out)) && ShownBy(bits, 21, 20, 19, limits)
  {
    hide SummedUp;
    SumOfThree(way, bytes, last);
  }

  lemma NcFlagIs(k: Kind, c: Control, rgbc: Color, ir0: int, v: Vec)
    ensures ReportsColour(NcFlag(k, c, rgbc, ir0, v), k, c, rgbc, ir0, v)
  {
    var way, colour, on := WayBits(k, c, rgbc, v), ColourOf(k, c, rgbc, ir0, v), OutsideOnTheWay(k, c, rgbc, v);
    var above, below := OverflowsOnTheWay(k, c, rgbc, v, true), OverflowsOnTheWay(k, c, rgbc, v, false);
    var limits := Marks(OutOfByte(colour.x), OutOfByte(colour.y), OutOfByte(colour.z));
    var out := if k == Tinted then Marks(false, false, false) else Outside(colour, true);
    ColourBitsAre(k, c, rgbc, ir0, v);
    hide SummedUp, LimBBits, LimCBits, WayBits, Coloured, OverflowsOnTheWay, OutsideOnTheWay, Outside, OutOfByte;
    WayBitsAre(k, c, rgbc, ir0, v);
    LimCBitsAre(colour);
    LimBSum(colour, true);
    LimBBitsAre(colour, true);
    SumOfOne({}, 0);
    assert ShownBy(way, 24, 23, 22, on);
    ReportsSum(way, LimCBits(colour), LastBits(k, colour), above, below, on, out, limits);
    assert NcFlag(k, c, rgbc, ir0, v) == way + LimCBits(colour) + LastBits(k, colour);
    assert k == Tinted ==> Either(on, out) == on;
  }

  /** `v` is less than one off the point that lies `ir0`, in 1/4096, of the way from `t` to `far`. */
  predicate Between(v: int, t: int, far: int, ir0: int) {
    Abs(4096 * (v - t) - ir0 * (far - t)) < 4096
  }

  predicate Near(far: int, t: int) {
    -0x8000 <= far - t <= 0x7fff
  }

  lemma FadeComponent(r: int, ir: int, t: int, far: int, ir0: int, f: int)
    requires 256 * t <= r * ir < 256 * t + 256 && f == far - t
    ensures Between(Shr(r * 16 * ir + ir0 * f, 12), t, far, ir0)
  {
    assert r * 16 * ir == 16 * (r * ir);
  }

  lemma NearLimited(far: int, t: int)
    requires Near(far, t)
    ensures Limited(ToS32(far - t), 0x7fff, -0x8000) == far - t
  {
  }

  /** A faded component lies between the tinted one and the far colour, unless these are too far apart. */
  lemma FadeIsBetween(c: Control, rgbc: Color, ir0: int, ir: Vec)
    ensures var t, v := Tint(rgbc, ir), Fade(c, rgbc, ir0, ir);
            && (Near(c.far.x, t.x) ==> Between(v.x, t.x, c.far.x, ir0))
            && (Near(c.far.y, t.y) ==> Between(v.y, t.y, c.far.y, ir0))
            && (Near(c.far.z, t.z) ==> Between(v.z, t.z, c.far.z, ir0))
  {
    var t := Tint(rgbc, ir);
    TintIs(rgbc, ir);
    hide Shr, Tint, Between, Near, Limited, ToS32;
    if Near(c.far.x, t.x) {
      NearLimited(c.far.x, t.x);
      FadeComponent(rgbc.r, ir.x, t.x, c.far.x, ir0, c.far.x - t.x);
    }
    if Near(c.far.y, t.y) {
      NearLimited(c.far.y, t.y);
      FadeComponent(rgbc.g, ir.y, t.y, c.far.y, ir0, c.far.y - t.y);
    }
    if Near(c.far.z, t.z) {
      NearLimited(c.far.z, t.z);
      FadeComponent(rgbc.b, ir.z, t.z, c.far.z, ir0, c.far.z - t.z);
    }
  }

  // ---------------------------------------------------------------------------
  // The registers in place
  // ---------------------------------------------------------------------------

  function ColourQueue(q: seq<Color>, code: int, ls: seq<Lit>, n: nat): (r: seq<Color>)
    requires |q| == 3 && n <= |ls|
    ensures |r| == 3
  {
    if n == 0 then q else ColourQueue(q, code, ls, n - 1)[1..] + [LimC(ls[n - 1].mac, code)]
  }

  function ColourBits(ls: seq<Lit>, n: nat): set<nat>
    requires n <= |ls|
  {
    if n == 0 then {} else ColourBits(ls, n - 1) + ls[n - 1].bits
  }

  lemma ThreeColours(q: seq<Color>, code: int, ls: seq<Lit>)
    requires |q| == 3 == |ls|
    ensures ColourBits(ls, 3) == ls[0].bits + ls[1].bits + ls[2].bits
    ensures ColourQueue(q, code, ls, 3) ==
            ((q[1..] + [LimC(ls[0].mac, code)])[1..] + [LimC(ls[1].mac, code)])[1..] + [LimC(ls[2].mac, code)]
  {
    assert ColourBits(ls, 1) == ls[0].bits;
    assert ColourBits(ls, 2) == ls[0].bits + ls[1].bits;
    assert ColourQueue(q, code, ls, 1) == q[1..] + [LimC(ls[0].mac, code)];
    assert ColourQueue(q, code, ls, 2) == ColourQueue(q, code, ls, 1)[1..] + [LimC(ls[1].mac, code)];
  }

  ghost predicate Becomes(c: Control, v: seq<Vec>, ps: seq<Projected>) {
    |v| == |ps| && forall i {:trigger Project(c, v[i])} :: 0 <= i < |v| ==> ps[i] == Project(c, v[i])
  }

  function AllProjected(c: Control, v: seq<Vec>): (ps: seq<Projected>)
    ensures |ps| == |v|
  {
    seq(|v|, i requires 0 <= i < |v| => Project(c, v[i]))
  }

  lemma AllBecome(c: Control, v: seq<Vec>, ps: seq<Projected>)
    requires ps == AllProjected(c, v) && |v| == 3
    ensures Becomes(c, v, ps)
    ensures ps[0] == Project(c, v[0]) && ps[1] == Project(c, v[1]) && ps[2] == Project(c, v[2])
  {
  }

  /** After `i` vertices the new queues hold them from the front on. */
  ghost predicate Turned(d: Data, e: Data, ps: seq<Projected>, i: nat, q: nat) {
    && Shaped(d) && Shaped(e) && i <= 3 == |ps| && e.rgb == d.rgb && e.sz[0] == d.sz[3]
    && (forall j :: 0 <= j < i ==> e.sz[j + 1] == ps[j].sz && e.sxy[j] == ps[j].sxy)
    && (i > 0 ==> e.mac == ps[i - 1].mac && e.ir == ps[i - 1].ir && q == ps[i - 1].quotient)
  }

  lemma PushedThrice(c: Control, d: Data, ps: seq<Projected>, e: Data)
    requires Shaped(d) && Shaped(e) && |ps| == 3 && e.rgb == d.rgb
    requires e.sz[0] == d.sz[3] && forall j :: 0 <= j < 3 ==> e.sz[j + 1] == ps[j].sz && e.sxy[j] == ps[j].sxy
    requires e.ir == ps[2].ir && e.mac == ps[2].mac && e.mac0 == ToS32(Cue(c, ps[2].quotient))
    requires e.ir0 == Limited(Shr(Cue(c, ps[2].quotient), 12), 0x1000, 0)
    ensures e == Pushed(c, Pushed(c, Pushed(c, d, ps[0]), ps[1]), ps[2])
  {
    assert e.sz == [d.sz[3], ps[0].sz, ps[1].sz, ps[2].sz];
    assert e.sxy == [ps[0].sxy, ps[1].sxy, ps[2].sxy];
  }

  function BitsOf(ps: seq<Projected>, n: nat): set<nat>
    requires n <= |ps|
  {
    if n == 0 then {} else BitsOf(ps, n - 1) + ps[n - 1].bits
  }

  lemma ThreeBitsOf(ps: seq<Projected>)
    requires |ps| == 3
    ensures BitsOf(ps, 3) == ps[0].bits + ps[1].bits + ps[2].bits
  {
    assert BitsOf(ps, 1) == ps[0].bits;
    assert BitsOf(ps, 2) == ps[0].bits + ps[1].bits;
  }

  class Engine {
    const control: Control
    const v: seq<Vec>
    const rgbc: Color
    var ir0: int
    var ir: Vec
    var mac0: int
    var mac: Vec
    var sz: seq<int>
    var sxy: seq<Point>
    var rgb: seq<Color>
    var flag: set<nat>

    ghost function Abs(): Data
      reads this
    {
      Data(ir0, ir, mac0, mac, sz, sxy, rgb)
    }

    constructor (control: Control, v: seq<Vec>, rgbc: Color, d: Data)
      ensures this.control == control && this.v == v && this.rgbc == rgbc && Abs() == d && flag == {}
    {
      this.control, this.v, this.rgbc := control, v, rgbc;
      ir0, ir, mac0, mac, sz, sxy, rgb, flag := d.ir0, d.ir, d.mac0, d.mac, d.sz, d.sxy, d.rgb, {};
    }

    /** `BOUNDS`: the value is left as it is. */
    method Bounds(x: int, high: set<nat>, low: set<nat>)
      modifies `flag
      ensures flag == old(flag) + BoundsBits(x, high, low)
    {
      if x > 0x7fff_ffff {
        flag := flag + high;
      } else if x < -0x8000_0000 {
        flag := flag + low;
      }
    }

    /** `LIM`. */
    method Lim(x: int, max: int, min: int, bits: set<nat>) returns (r: int)
      requires min <= max
      modifies `flag
      ensures r == Limited(x, max, min) && flag == old(flag) + LimBits(x, max, min, bits)
    {
      r := x;
      if x > max {
        flag := flag + bits;
        r := max;
      } else if x < min {
        flag := flag + bits;
        r := min;
      }
    }

    method BoundsA(m: Vec)
      modifies `flag
      ensures flag == old(flag) + BoundsABits(m)
    {
      Bounds(m.x, {30}, {31, 27});
      Bounds(m.y, {29}, {31, 26});
      Bounds(m.z, {28}, {31, 25});
    }

    method LimitB(m: Vec, lm: bool) returns (r: Vec)
      modifies `flag
      ensures r == LimB(m, lm) && flag == old(flag) + LimBBits(m, lm)
    {
      var min := if lm then 0 else -0x8000;
      var x := Lim(m.x, 0x7fff, min, {31, 24});
      var y := Lim(m.y, 0x7fff, min, {31, 23});
      var z := Lim(m.z, 0x7fff, min, {22});
      r := Vec(x, y, z);
    }

    method LimitC(m: Vec, code: int) returns (r: Color)
      modifies `flag
      ensures r == LimC(m, code) && flag == old(flag) + LimCBits(m)
    {
      var x := Lim(Shr(m.x, 4), 0xff, 0, {21});
      var y := Lim(Shr(m.y, 4), 0xff, 0, {20});
      var z := Lim(Shr(m.z, 4), 0xff, 0, {19});
      r := Color(x, y, z, code);
    }

    /** Rotation (src/gte.cpp:407-412, 447-452). */
    method Turn(p: Vec)
      modifies `flag, `mac, `ir
      ensures var m := Moved(control.tr, control.rot, p);
              && mac == Truncated(m) && ir == LimB(mac, false)
              && flag == old(flag) + (BoundsABits(m) + LimBBits(mac, false))
    {
      var m := Moved(control.tr, control.rot, p);
      BoundsA(m);
      mac := Truncated(m);
      ir := LimitB(mac, false);
    }

    /** Depth and quotient (src/gte.cpp:416-417, 453-454). */
    method Depth() returns (z: nat, q: nat)
      modifies `flag
      ensures z == Limited(mac.z, 0xffff, 0) && q == Quotient(control, z)
      ensures flag == old(flag) + DepthBits(control, mac.z)
    {
      z := Lim(mac.z, 0xffff, 0, {31, 18});
      q := Divide(control.h, z);
      if q > 0x1ffff {
        flag := flag + {31, 17};
        q := 0x1ffff;
      }
    }

    /** Screen coordinates (src/gte.cpp:420-421, 455-456). */
    method Screen(q: nat) returns (s: Point)
      modifies `flag
      ensures s == ScreenAt(control, ir, q) && flag == old(flag) + ScreenBits(control, ir, q)
    {
      var x, y := control.ofx + ir.x * q, control.ofy + ir.y * q;
      Bounds(x, {31, 16}, {31, 15});
      var sx := Lim(Shr(x, 16), 0x3ff, -0x400, {31, 14});
      Bounds(y, {31, 16}, {31, 15});
      var sy := Lim(Shr(y, 16), 0x3ff, -0x400, {31, 13});
      s := Point(sx, sy);
    }

    /** A vertex through rotation and perspective; `r` is what it becomes. */
    method Vertex(p: Vec, ghost r: Projected) returns (z: nat, s: Point, q: nat)
      requires r == Project(control, p)
      modifies `flag, `mac, `ir
      ensures mac == r.mac && ir == r.ir && z == r.sz && s == r.sxy && q == r.quotient
      ensures flag == old(flag) + r.bits
    {
      Turn(p);
      z, q := Depth();
      s := Screen(q);
    }

    /** Depth cueing (src/gte.cpp:427-429, 460-462). */
    method DepthCue(q: nat)
      modifies `flag, `mac0, `ir0
      ensures mac0 == ToS32(Cue(control, q)) && ir0 == Limited(Shr(Cue(control, q), 12), 0x1000, 0)
      ensures flag == old(flag) + CueBits(control, q)
    {
      var tmp := Cue(control, q);
      Bounds(tmp, {31, 16}, {31, 15});
      mac0 := ToS32(tmp);
      ir0 := Lim(Shr(tmp, 12), 0x1000, 0, {12});
    }

    /** `gteRTPS` (src/gte.cpp:399-430) on a vertex that becomes `ps[0]`. */
    method RtpsStep(ghost ps: seq<Projected>)
      requires Shaped(Abs()) && |v| == 3 == |ps| && Becomes(control, v, ps)
      modifies this
      ensures Abs() == Pushed(control, old(Abs()), ps[0])
      ensures flag == ps[0].bits + CueBits(control, ps[0].quotient)
    {
      hide Project, CueBits;
      flag := {};
      var z, s, q := Vertex(v[0], ps[0]);
      sz := sz[1..] + [z];
      sxy := sxy[1..] + [s];
      DepthCue(q);
    }

    /** `gteRTPS`. */
    method GteRtps()
      requires Shaped(Abs()) && |v| == 3
      modifies this
      ensures Abs() == Rtps(control, old(Abs()), v[0]) && flag == RtpsFlag(control, v[0])
    {
      ghost var ps := AllProjected(control, v);
      AllBecome(control, v, ps);
      RtpsStep(ps);
    }

    /** `gteRTPT` (src/gte.cpp:432-463) on vertices that become `ps`. */
    method RtptLoop(ghost ps: seq<Projected>)
      requires Shaped(Abs()) && |v| == 3 == |ps| && Becomes(control, v, ps)
      modifies this
      ensures Abs() == Pushed(control, Pushed(control, Pushed(control, old(Abs()), ps[0]), ps[1]), ps[2])
      ensures flag == ThreeBits(control, ps[0], ps[1], ps[2])
    {
      flag := {};
      ghost var d := Abs();
      sz := sz[0 := sz[3]];
      var q := 0;
      for i := 0 to 3
        invariant Turned(d, Abs(), ps, i, q) && flag == BitsOf(ps, i)
      {
        q := StoreVertex(i, ps, d);
      }
      DepthCue(q);
      ThreeBitsOf(ps);
      PushedThrice(control, d, ps, Abs());
    }

    /** The body of the loop of `gteRTPT` (src/gte.cpp:443-457). */
    method StoreVertex(i: nat, ghost ps: seq<Projected>, ghost d: Data) returns (q: nat)
      requires i < 3 == |v| == |ps| && Becomes(control, v, ps)
      requires exists q: nat :: Turned(d, Abs(), ps, i, q)
      modifies `flag, `mac, `ir, `sz, `sxy
      ensures Turned(d, Abs(), ps, i + 1, q) && flag == old(flag) + ps[i].bits
    {
      var z, s;
      z, s, q := Vertex(v[i], ps[i]);
      sz := sz[i + 1 := z];
      sxy := sxy[i := s];
    }

    /** `gteRTPT`: the data registers are left as by three single operations. */
    method GteRtpt()
      requires Shaped(Abs()) && |v| == 3
      modifies this
      ensures Abs() == Rtps(control, Rtps(control, Rtps(control, old(Abs()), v[0]), v[1]), v[2])
      ensures flag == RtptFlag(control, v)
    {
      ghost var ps := AllProjected(control, v);
      AllBecome(control, v, ps);
      RtptLoop(ps);
    }

    /** The light on a normal over the background (src/gte.cpp:545-553, 619-627, 837-845). */
    method ShadeIn(p: Vec)
      modifies `flag, `mac, `ir
      ensures mac == Truncated(Shade(control, p)) && flag == old(flag) + ShadeBits(control, p)
    {
      mac := Light(control, p);
      ir := LimitB(mac, true);
      var m := Moved(control.back, control.lightColor, ir);
      BoundsA(m);
      mac := Truncated(m);
    }

    /** Fading into the far colour (src/gte.cpp:631-633, 671-673). */
    method FadeIn()
      modifies `flag, `mac
      ensures mac == Fade(control, rgbc, ir0, ir) && flag == old(flag) + FadeBits(control, rgbc, ir)
    {
      var d := Distance(control.far, Tint(rgbc, ir));
      if control.paranoid { BoundsA(d); }
      var f := LimitB(Truncated(d), false);
      mac := Vec(Shr(rgbc.r * 16 * ir.x + ir0 * f.x, 12), Shr(rgbc.g * 16 * ir.y + ir0 * f.y, 12),
                 Shr(rgbc.b * 16 * ir.z + ir0 * f.z, 12));
    }

    /** A normal's colour, pushed into the colour queue; `l` is what it becomes. */
    method Colour(k: Kind, p: Vec, ghost l: Lit)
      requires |rgb| == 3 && l == Coloured(k, control, rgbc, ir0, p)
      modifies `flag, `mac, `ir, `rgb
      ensures mac == l.mac && rgb == old(rgb)[1..] + [LimC(l.mac, rgbc.code)] && flag == old(flag) + l.bits
    {
      hide Shade, Light, LimCBits, ShadeBits, LimBBits, FadeBits, Fade, Tint;
      ShadeIn(p);
      if k != Plain {
        Blend(k);
      }
      var c := LimitC(mac, rgbc.code);
      rgb := rgb[1..] + [c];
    }

    /** The light laid on the vertex colour (src/gte.cpp:554-559, 628-633). */
    method Blend(k: Kind)
      requires k != Plain
      modifies `flag, `mac, `ir
      ensures var l := LimB(old(mac), true);
              && mac == (if k == Tinted then Tint(rgbc, l) else Fade(control, rgbc, ir0, l))
              && flag == old(flag) + (LimBBits(old(mac), true) + if k == Tinted then {} else FadeBits(control, rgbc, l))
    {
      ir := LimitB(mac, true);
      if k == Tinted {
        mac := Tint(rgbc, ir);
      } else {
        FadeIn();
      }
    }

    method LastLimit(k: Kind)
      modifies `flag, `ir
      ensures ir == LastIr(k, mac) && flag == old(flag) + LastBits(k, mac)
    {
      if k == Tinted {
        ir := mac;
      } else {
        ir := LimitB(mac, true);
      }
    }

    /** A single operation on a normal that becomes `ls[0]`. */
    method NcStep(k: Kind, ghost ls: seq<Lit>)
      requires Shaped(Abs()) && |v| == 3 == |ls| && Lights(k, control, rgbc, ir0, v, ls)
      modifies this
      ensures Abs() == ColourPushed(k, rgbc.code, old(Abs()), ls[0])
      ensures flag == ls[0].bits + LastBits(k, ls[0].mac)
    {
      flag := {};
      Colour(k, v[0], ls[0]);
      LastLimit(k);
    }

    /** `gteNCS`, `gteNCCS` and `gteNCDS` (src/gte.cpp:831-856, 539-570, 613-644). */
    method GteNcs(k: Kind)
      requires Shaped(Abs()) && |v| == 3
      modifies this
      ensures Abs() == Nc(k, control, rgbc, old(Abs()), v[0]) && flag == NcFlag(k, control, rgbc, ir0, v[0])
    {
      ghost var ls := AllColoured(k, control, rgbc, ir0, v);
      AllLight(k, control, rgbc, ir0, v, ls);
      NcStep(k, ls);
    }

    /** A triple operation on normals that become `ls`: the intermediate registers are limited only at the end. */
    method NctLoop(k: Kind, ghost ls: seq<Lit>)
      requires Shaped(Abs()) && |v| == 3 == |ls| && Lights(k, control, rgbc, ir0, v, ls)
      modifies this
      ensures var one := ColourPushed(k, rgbc.code, old(Abs()), ls[0]);
              Abs() == ColourPushed(k, rgbc.code, ColourPushed(k, rgbc.code, one, ls[1]), ls[2])
      ensures flag == ThreeColourBits(k, ls[0], ls[1], ls[2])
    {
      flag := {};
      ghost var d := Abs();
      for i := 0 to 3
        invariant |rgb| == 3 && Abs() == d.(ir := ir, mac := mac, rgb := rgb)
        invariant rgb == ColourQueue(d.rgb, rgbc.code, ls, i)
        invariant i > 0 ==> mac == ls[i - 1].mac
        invariant flag == ColourBits(ls, i)
      {
        Colour(k, v[i], ls[i]);
      }
      LastLimit(k);
      ThreeColours(d.rgb, rgbc.code, ls);
    }

    /** `gteNCT`, `gteNCCT` and `gteNCDT` (src/gte.cpp:858-890, 572-611, 646-685): the data registers are left
        as by three single operations. */
    method GteNct(k: Kind)
      requires Shaped(Abs()) && |v| == 3
      modifies this
      ensures Abs() == Nc(k, control, rgbc, Nc(k, control, rgbc, Nc(k, control, rgbc, old(Abs()), v[0]), v[1]), v[2])
      ensures flag == NctFlag(k, control, rgbc, ir0, v)
    {
      ghost var ls := AllColoured(k, control, rgbc, ir0, v);
      AllLight(k, control, rgbc, ir0, v, ls);
      NctLoop(k, ls);
    }
  }
}
