/** The checksum of Q-channel frames (src/cdrom.cpp:192-233): the table-driven loop computes the bit-serial CRC of
    section 22.3 of ECMA-130 (polynomial x^16 + x^12 + x^5 + 1, initial value 0, inverted). */
module SubqCrc {
  import opened CrcRegister

  /** `crctab`, by sixteens (src/cdrom.cpp:192-222). */
  const CRCTAB: seq<seq<bv16>> := [
    [0x0000, 0x1021, 0x2042, 0x3063, 0x4084, 0x50A5, 0x60C6, 0x70E7,
     0x8108, 0x9129, 0xA14A, 0xB16B, 0xC18C, 0xD1AD, 0xE1CE, 0xF1EF],
    [0x1231, 0x0210, 0x3273, 0x2252, 0x52B5, 0x4294, 0x72F7, 0x62D6,
     0x9339, 0x8318, 0xB37B, 0xA35A, 0xD3BD, 0xC39C, 0xF3FF, 0xE3DE],
    [0x2462, 0x3443, 0x0420, 0x1401, 0x64E6, 0x74C7, 0x44A4, 0x5485,
     0xA56A, 0xB54B, 0x8528, 0x9509, 0xE5EE, 0xF5CF, 0xC5AC, 0xD58D],
    [0x3653, 0x2672, 0x1611, 0x0630, 0x76D7, 0x66F6, 0x5695, 0x46B4,
     0xB75B, 0xA77A, 0x9719, 0x8738, 0xF7DF, 0xE7FE, 0xD79D, 0xC7BC],
    [0x48C4, 0x58E5, 0x6886, 0x78A7, 0x0840, 0x1861, 0x2802, 0x3823,
     0xC9CC, 0xD9ED, 0xE98E, 0xF9AF, 0x8948, 0x9969, 0xA90A, 0xB92B],
    [0x5AF5, 0x4AD4, 0x7AB7, 0x6A96, 0x1A71, 0x0A50, 0x3A33, 0x2A12,
     0xDBFD, 0xCBDC, 0xFBBF, 0xEB9E, 0x9B79, 0x8B58, 0xBB3B, 0xAB1A],
    [0x6CA6, 0x7C87, 0x4CE4, 0x5CC5, 0x2C22, 0x3C03, 0x0C60, 0x1C41,
     0xEDAE, 0xFD8F, 0xCDEC, 0xDDCD, 0xAD2A, 0xBD0B, 0x8D68, 0x9D49],
    [0x7E97, 0x6EB6, 0x5ED5, 0x4EF4, 0x3E13, 0x2E32, 0x1E51, 0x0E70,
     0xFF9F, 0xEFBE, 0xDFDD, 0xCFFC, 0xBF1B, 0xAF3A, 0x9F59, 0x8F78],
    [0x9188, 0x81A9, 0xB1CA, 0xA1EB, 0xD10C, 0xC12D, 0xF14E, 0xE16F,
     0x1080, 0x00A1, 0x30C2, 0x20E3, 0x5004, 0x4025, 0x7046, 0x6067],
    [0x83B9, 0x9398, 0xA3FB, 0xB3DA, 0xC33D, 0xD31C, 0xE37F, 0xF35E,
     0x02B1, 0x1290, 0x22F3, 0x32D2, 0x4235, 0x5214, 0x6277, 0x7256],
    [0xB5EA, 0xA5CB, 0x95A8, 0x8589, 0xF56E, 0xE54F, 0xD52C, 0xC50D,
     0x34E2, 0x24C3, 0x14A0, 0x0481, 0x7466, 0x6447, 0x5424, 0x4405],
    [0xA7DB, 0xB7FA, 0x8799, 0x97B8, 0xE75F, 0xF77E, 0xC71D, 0xD73C,
     0x26D3, 0x36F2, 0x0691, 0x16B0, 0x6657, 0x7676, 0x4615, 0x5634],
    [0xD94C, 0xC96D, 0xF90E, 0xE92F, 0x99C8, 0x89E9, 0xB98A, 0xA9AB,
     0x5844, 0x4865, 0x7806, 0x6827, 0x18C0, 0x08E1, 0x3882, 0x28A3],
    [0xCB7D, 0xDB5C, 0xEB3F, 0xFB1E, 0x8BF9, 0x9BD8, 0xABBB, 0xBB9A,
     0x4A75, 0x5A54, 0x6A37, 0x7A16, 0x0AF1, 0x1AD0, 0x2AB3, 0x3A92],
    [0xFD2E, 0xED0F, 0xDD6C, 0xCD4D, 0xBDAA, 0xAD8B, 0x9DE8, 0x8DC9,
     0x7C26, 0x6C07, 0x5C64, 0x4C45, 0x3CA2, 0x2C83, 0x1CE0, 0x0CC1],
    [0xEF1F, 0xFF3E, 0xCF5D, 0xDF7C, 0xAF9B, 0xBFBA, 0x8FD9, 0x9FF8,
     0x6E17, 0x7E36, 0x4E55, 0x5E74, 0x2E93, 0x3EB2, 0x0ED1, 0x1EF0]]

  function Crctab(x: bv8): bv16 {
    CRCTAB[(x >> 4) as int][(x & 0xf) as int]
  }

  /** The register after the bits of a string of bytes. */
  function Serial(c: bv16, d: seq<bv8>): bv16
    decreases |d|
  {
    if d == [] then c else Serial(SerialByte(c, d[0]), d[1..])
  }

  // ---------------------------------------------------------------------------
  // The table
  // ---------------------------------------------------------------------------

  /** The table entry of a byte is that byte shifted through the register. */
  predicate Entry(x: bv8) {
    Crctab(x) == Step8((x as bv16) << 8)
  }

  lemma Row0(x: bv8)
    requires 0x00 <= x <= 0x0f
    ensures Entry(x)
  {
    assert Entry(0x00) && Entry(0x01) && Entry(0x02) && Entry(0x03);
    assert Entry(0x04) && Entry(0x05) && Entry(0x06) && Entry(0x07);
    assert Entry(0x08) && Entry(0x09) && Entry(0x0a) && Entry(0x0b);
    assert Entry(0x0c) && Entry(0x0d) && Entry(0x0e) && Entry(0x0f);
  }

  lemma Row1(x: bv8)
    requires 0x10 <= x <= 0x1f
    ensures Entry(x)
  {
    assert Entry(0x10) && Entry(0x11) && Entry(0x12) && Entry(0x13);
    assert Entry(0x14) && Entry(0x15) && Entry(0x16) && Entry(0x17);
    assert Entry(0x18) && Entry(0x19) && Entry(0x1a) && Entry(0x1b);
    assert Entry(0x1c) && Entry(0x1d) && Entry(0x1e) && Entry(0x1f);
  }

  lemma Row2(x: bv8)
    requires 0x20 <= x <= 0x2f
    ensures Entry(x)
  {
    assert Entry(0x20) && Entry(0x21) && Entry(0x22) && Entry(0x23);
    assert Entry(0x24) && Entry(0x25) && Entry(0x26) && Entry(0x27);
    assert Entry(0x28) && Entry(0x29) && Entry(0x2a) && Entry(0x2b);
    assert Entry(0x2c) && Entry(0x2d) && Entry(0x2e) && Entry(0x2f);
  }

  lemma Row3(x: bv8)
    requires 0x30 <= x <= 0x3f
    ensures Entry(x)
  {
    assert Entry(0x30) && Entry(0x31) && Entry(0x32) && Entry(0x33);
    assert Entry(0x34) && Entry(0x35) && Entry(0x36) && Entry(0x37);
    assert Entry(0x38) && Entry(0x39) && Entry(0x3a) && Entry(0x3b);
    assert Entry(0x3c) && Entry(0x3d) && Entry(0x3e) && Entry(0x3f);
  }

  lemma Row4(x: bv8)
    requires 0x40 <= x <= 0x4f
    ensures Entry(x)
  {
    assert Entry(0x40) && Entry(0x41) && Entry(0x42) && Entry(0x43);
    assert Entry(0x44) && Entry(0x45) && Entry(0x46) && Entry(0x47);
    assert Entry(0x48) && Entry(0x49) && Entry(0x4a) && Entry(0x4b);
    assert Entry(0x4c) && Entry(0x4d) && Entry(0x4e) && Entry(0x4f);
  }

  lemma Row5(x: bv8)
    requires 0x50 <= x <= 0x5f
    ensures Entry(x)
  {
    assert Entry(0x50) && Entry(0x51) && Entry(0x52) && Entry(0x53);
    assert Entry(0x54) && Entry(0x55) && Entry(0x56) && Entry(0x57);
    assert Entry(0x58) && Entry(0x59) && Entry(0x5a) && Entry(0x5b);
    assert Entry(0x5c) && Entry(0x5d) && Entry(0x5e) && Entry(0x5f);
  }

  lemma Row6(x: bv8)
    requires 0x60 <= x <= 0x6f
    ensures Entry(x)
  {
    assert Entry(0x60) && Entry(0x61) && Entry(0x62) && Entry(0x63);
    assert Entry(0x64) && Entry(0x65) && Entry(0x66) && Entry(0x67);
    assert Entry(0x68) && Entry(0x69) && Entry(0x6a) && Entry(0x6b);
    assert Entry(0x6c) && Entry(0x6d) && Entry(0x6e) && Entry(0x6f);
  }

  lemma Row7(x: bv8)
    requires 0x70 <= x <= 0x7f
    ensures Entry(x)
  {
    assert Entry(0x70) && Entry(0x71) && Entry(0x72) && Entry(0x73);
    assert Entry(0x74) && Entry(0x75) && Entry(0x76) && Entry(0x77);
    assert Entry(0x78) && Entry(0x79) && Entry(0x7a) && Entry(0x7b);
    assert Entry(0x7c) && Entry(0x7d) && Entry(0x7e) && Entry(0x7f);
  }

  lemma Row8(x: bv8)
    requires 0x80 <= x <= 0x8f
    ensures Entry(x)
  {
    assert Entry(0x80) && Entry(0x81) && Entry(0x82) && Entry(0x83);
    assert Entry(0x84) && Entry(0x85) && Entry(0x86) && Entry(0x87);
    assert Entry(0x88) && Entry(0x89) && Entry(0x8a) && Entry(0x8b);
    assert Entry(0x8c) && Entry(0x8d) && Entry(0x8e) && Entry(0x8f);
  }

  lemma Row9(x: bv8)
    requires 0x90 <= x <= 0x9f
    ensures Entry(x)
  {
    assert Entry(0x90) && Entry(0x91) && Entry(0x92) && Entry(0x93);
    assert Entry(0x94) && Entry(0x95) && Entry(0x96) && Entry(0x97);
    assert Entry(0x98) && Entry(0x99) && Entry(0x9a) && Entry(0x9b);
    assert Entry(0x9c) && Entry(0x9d) && Entry(0x9e) && Entry(0x9f);
  }

  lemma Row10(x: bv8)
    requires 0xa0 <= x <= 0xaf
    ensures Entry(x)
  {
    assert Entry(0xa0) && Entry(0xa1) && Entry(0xa2) && Entry(0xa3);
    assert Entry(0xa4) && Entry(0xa5) && Entry(0xa6) && Entry(0xa7);
    assert Entry(0xa8) && Entry(0xa9) && Entry(0xaa) && Entry(0xab);
    assert Entry(0xac) && Entry(0xad) && Entry(0xae) && Entry(0xaf);
  }

  lemma Row11(x: bv8)
    requires 0xb0 <= x <= 0xbf
    ensures Entry(x)
  {
    assert Entry(0xb0) && Entry(0xb1) && Entry(0xb2) && Entry(0xb3);
    assert Entry(0xb4) && Entry(0xb5) && Entry(0xb6) && Entry(0xb7);
    assert Entry(0xb8) && Entry(0xb9) && Entry(0xba) && Entry(0xbb);
    assert Entry(0xbc) && Entry(0xbd) && Entry(0xbe) && Entry(0xbf);
  }

  lemma Row12(x: bv8)
    requires 0xc0 <= x <= 0xcf
    ensures Entry(x)
  {
    assert Entry(0xc0) && Entry(0xc1) && Entry(0xc2) && Entry(0xc3);
    assert Entry(0xc4) && Entry(0xc5) && Entry(0xc6) && Entry(0xc7);
    assert Entry(0xc8) && Entry(0xc9) && Entry(0xca) && Entry(0xcb);
    assert Entry(0xcc) && Entry(0xcd) && Entry(0xce) && Entry(0xcf);
  }

  lemma Row13(x: bv8)
    requires 0xd0 <= x <= 0xdf
    ensures Entry(x)
  {
    assert Entry(0xd0) && Entry(0xd1) && Entry(0xd2) && Entry(0xd3);
    assert Entry(0xd4) && Entry(0xd5) && Entry(0xd6) && Entry(0xd7);
    assert Entry(0xd8) && Entry(0xd9) && Entry(0xda) && Entry(0xdb);
    assert Entry(0xdc) && Entry(0xdd) && Entry(0xde) && Entry(0xdf);
  }

  lemma Row14(x: bv8)
    requires 0xe0 <= x <= 0xef
    ensures Entry(x)
  {
    assert Entry(0xe0) && Entry(0xe1) && Entry(0xe2) && Entry(0xe3);
    assert Entry(0xe4) && Entry(0xe5) && Entry(0xe6) && Entry(0xe7);
    assert Entry(0xe8) && Entry(0xe9) && Entry(0xea) && Entry(0xeb);
    assert Entry(0xec) && Entry(0xed) && Entry(0xee) && Entry(0xef);
  }

  lemma Row15(x: bv8)
    requires 0xf0 <= x <= 0xff
    ensures Entry(x)
  {
    assert Entry(0xf0) && Entry(0xf1) && Entry(0xf2) && Entry(0xf3);
    assert Entry(0xf4) && Entry(0xf5) && Entry(0xf6) && Entry(0xf7);
    assert Entry(0xf8) && Entry(0xf9) && Entry(0xfa) && Entry(0xfb);
    assert Entry(0xfc) && Entry(0xfd) && Entry(0xfe) && Entry(0xff);
  }

  lemma LowRows(x: bv8)
    requires x <= 0x7f
    ensures Entry(x)
  {
    if x <= 0x0f { Row0(x); } else if x <= 0x1f { Row1(x); } else if x <= 0x2f { Row2(x); }
    else if x <= 0x3f { Row3(x); } else if x <= 0x4f { Row4(x); } else if x <= 0x5f { Row5(x); }
    else if x <= 0x6f { Row6(x); } else { Row7(x); }
  }

  lemma HighRows(x: bv8)
    requires 0x80 <= x
    ensures Entry(x)
  {
    if x <= 0x8f { Row8(x); } else if x <= 0x9f { Row9(x); } else if x <= 0xaf { Row10(x); }
    else if x <= 0xbf { Row11(x); } else if x <= 0xcf { Row12(x); } else if x <= 0xdf { Row13(x); }
    else if x <= 0xef { Row14(x); } else { Row15(x); }
  }

  lemma TableIsSerial(x: bv8)
    ensures Entry(x)
  {
    if x <= 0x7f {
      LowRows(x);
    } else {
      HighRows(x);
    }
  }

  // ---------------------------------------------------------------------------
  // A byte at a time
  // ---------------------------------------------------------------------------

  /** The byte in the upper half. */
  function Upper(d: bv8): bv16 {
    (d as bv16) << 8
  }

  /** The index of the table entry looked up. */
  function Looked(c: bv16, d: bv8): bv8 {
    (c >> 8) as bv8 ^ d
  }

  /** The lower half of the register shifts out nothing. */
  lemma LowerShifts(c: bv16, lo: bv16)
    requires lo == c & 0xff
    ensures Step8(lo) == c << 8
  {
  }

  /** The index looks up the upper half of the register with the byte laid over it. */
  lemma Halves(c: bv16, d: bv8, s: bv16)
    requires IsXor(s, c, Upper(d))
    ensures IsXor(s, Upper(Looked(c, d)), c & 0xff)
  {
  }

  /** What the loop makes of the entry is the whole shifted through. */
  lemma EntryStep(c: bv16, s: bv16, hi: bv16, lo: bv16, r: bv16)
    requires IsXor(s, hi, lo) && Step8(lo) == c << 8 && IsXor(r, Step8(hi), c << 8)
    ensures r == Step8(s)
  {
    Step8Linear(s, hi, lo);
  }

  lemma LaidOver(c: bv16, x: bv16) returns (s: bv16)
    ensures IsXor(s, c, x)
  {
    s := c ^ x;
  }

  /** One step of the table-driven loop takes in one byte; `t` is the table entry looked up. */
  lemma TableStep(c: bv16, d: bv8, t: bv16, r: bv16)
    requires t == Step8(Upper(Looked(c, d))) && IsXor(r, t, c << 8)
    ensures r == SerialByte(c, d)
  {
    var s := LaidOver(c, Upper(d));
    Halves(c, d, s);
    LowerShifts(c, c & 0xff);
    EntryStep(c, s, Upper(Looked(c, d)), c & 0xff, r);
    SerialIsStep8(c, d, Upper(d), s);
  }

  method LookUp(x: bv8) returns (t: bv16)
    ensures t == Step8(Upper(x))
  {
    TableIsSerial(x);
    t := Crctab(x);
  }

  /** The body of the loop (src/cdrom.cpp:229). */
  method TakeIn(c: bv16, d: bv8) returns (r: bv16)
    ensures r == SerialByte(c, d)
  {
    var t := LookUp(Looked(c, d));
    r := t ^ (c << 8);
    TableStep(c, d, t, r);
  }

  lemma SerialMore(c: bv16, d: seq<bv8>, i: nat, r: bv16)
    requires i < |d| && r == SerialByte(c, d[i])
    ensures Serial(c, d[i..]) == Serial(r, d[i + 1..])
  {
    assert d[i..][1..] == d[i + 1..];
  }

  /** `calcCrc` (src/cdrom.cpp:224-233). */
  method CalcCrc(d: seq<bv8>) returns (crc: bv16)
    ensures crc == !Serial(0, d)
  {
    crc := 0;
    for i := 0 to |d|
      invariant Serial(crc, d[i..]) == Serial(0, d)
    {
      ghost var before := crc;
      crc := TakeIn(crc, d[i]);
      SerialMore(before, d, i, crc);
    }
    crc := !crc;
  }
}
