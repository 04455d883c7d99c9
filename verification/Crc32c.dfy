/** The Castagnoli CRC that protects every journal record.  The table-driven
    loop is proved equal to bit-serial division by the reflected generator, and
    the four bytes a record ends with are proved to be the only ones that leave
    the constant the replay code checks for. */
module Crc32c {
  import opened Bytes

  const SEED: bv32 := 0xFFFFFFFF
  const VALIDATOR: bv32 := 0xB798B438

  /** The generator 0x1EDC6F41 with its bits in reverse order. */
  const POLY: bv32 := 0x82F63B78

  /** The 256 precomputed remainders, sixteen to a row. */
  const TABLE: seq<seq<bv32>> := [
    [0x00000000, 0xF26B8303, 0xE13B70F7, 0x1350F3F4, 0xC79A971F, 0x35F1141C, 0x26A1E7E8, 0xD4CA64EB,
     0x8AD958CF, 0x78B2DBCC, 0x6BE22838, 0x9989AB3B, 0x4D43CFD0, 0xBF284CD3, 0xAC78BF27, 0x5E133C24],
    [0x105EC76F, 0xE235446C, 0xF165B798, 0x030E349B, 0xD7C45070, 0x25AFD373, 0x36FF2087, 0xC494A384,
     0x9A879FA0, 0x68EC1CA3, 0x7BBCEF57, 0x89D76C54, 0x5D1D08BF, 0xAF768BBC, 0xBC267848, 0x4E4DFB4B],
    [0x20BD8EDE, 0xD2D60DDD, 0xC186FE29, 0x33ED7D2A, 0xE72719C1, 0x154C9AC2, 0x061C6936, 0xF477EA35,
     0xAA64D611, 0x580F5512, 0x4B5FA6E6, 0xB93425E5, 0x6DFE410E, 0x9F95C20D, 0x8CC531F9, 0x7EAEB2FA],
    [0x30E349B1, 0xC288CAB2, 0xD1D83946, 0x23B3BA45, 0xF779DEAE, 0x05125DAD, 0x1642AE59, 0xE4292D5A,
     0xBA3A117E, 0x4851927D, 0x5B016189, 0xA96AE28A, 0x7DA08661, 0x8FCB0562, 0x9C9BF696, 0x6EF07595],
    [0x417B1DBC, 0xB3109EBF, 0xA0406D4B, 0x522BEE48, 0x86E18AA3, 0x748A09A0, 0x67DAFA54, 0x95B17957,
     0xCBA24573, 0x39C9C670, 0x2A993584, 0xD8F2B687, 0x0C38D26C, 0xFE53516F, 0xED03A29B, 0x1F682198],
    [0x5125DAD3, 0xA34E59D0, 0xB01EAA24, 0x42752927, 0x96BF4DCC, 0x64D4CECF, 0x77843D3B, 0x85EFBE38,
     0xDBFC821C, 0x2997011F, 0x3AC7F2EB, 0xC8AC71E8, 0x1C661503, 0xEE0D9600, 0xFD5D65F4, 0x0F36E6F7],
    [0x61C69362, 0x93AD1061, 0x80FDE395, 0x72966096, 0xA65C047D, 0x5437877E, 0x4767748A, 0xB50CF789,
     0xEB1FCBAD, 0x197448AE, 0x0A24BB5A, 0xF84F3859, 0x2C855CB2, 0xDEEEDFB1, 0xCDBE2C45, 0x3FD5AF46],
    [0x7198540D, 0x83F3D70E, 0x90A324FA, 0x62C8A7F9, 0xB602C312, 0x44694011, 0x5739B3E5, 0xA55230E6,
     0xFB410CC2, 0x092A8FC1, 0x1A7A7C35, 0xE811FF36, 0x3CDB9BDD, 0xCEB018DE, 0xDDE0EB2A, 0x2F8B6829],
    [0x82F63B78, 0x709DB87B, 0x63CD4B8F, 0x91A6C88C, 0x456CAC67, 0xB7072F64, 0xA457DC90, 0x563C5F93,
     0x082F63B7, 0xFA44E0B4, 0xE9141340, 0x1B7F9043, 0xCFB5F4A8, 0x3DDE77AB, 0x2E8E845F, 0xDCE5075C],
    [0x92A8FC17, 0x60C37F14, 0x73938CE0, 0x81F80FE3, 0x55326B08, 0xA759E80B, 0xB4091BFF, 0x466298FC,
     0x1871A4D8, 0xEA1A27DB, 0xF94AD42F, 0x0B21572C, 0xDFEB33C7, 0x2D80B0C4, 0x3ED04330, 0xCCBBC033],
    [0xA24BB5A6, 0x502036A5, 0x4370C551, 0xB11B4652, 0x65D122B9, 0x97BAA1BA, 0x84EA524E, 0x7681D14D,
     0x2892ED69, 0xDAF96E6A, 0xC9A99D9E, 0x3BC21E9D, 0xEF087A76, 0x1D63F975, 0x0E330A81, 0xFC588982],
    [0xB21572C9, 0x407EF1CA, 0x532E023E, 0xA145813D, 0x758FE5D6, 0x87E466D5, 0x94B49521, 0x66DF1622,
     0x38CC2A06, 0xCAA7A905, 0xD9F75AF1, 0x2B9CD9F2, 0xFF56BD19, 0x0D3D3E1A, 0x1E6DCDEE, 0xEC064EED],
    [0xC38D26C4, 0x31E6A5C7, 0x22B65633, 0xD0DDD530, 0x0417B1DB, 0xF67C32D8, 0xE52CC12C, 0x1747422F,
     0x49547E0B, 0xBB3FFD08, 0xA86F0EFC, 0x5A048DFF, 0x8ECEE914, 0x7CA56A17, 0x6FF599E3, 0x9D9E1AE0],
    [0xD3D3E1AB, 0x21B862A8, 0x32E8915C, 0xC083125F, 0x144976B4, 0xE622F5B7, 0xF5720643, 0x07198540,
     0x590AB964, 0xAB613A67, 0xB831C993, 0x4A5A4A90, 0x9E902E7B, 0x6CFBAD78, 0x7FAB5E8C, 0x8DC0DD8F],
    [0xE330A81A, 0x115B2B19, 0x020BD8ED, 0xF0605BEE, 0x24AA3F05, 0xD6C1BC06, 0xC5914FF2, 0x37FACCF1,
     0x69E9F0D5, 0x9B8273D6, 0x88D28022, 0x7AB90321, 0xAE7367CA, 0x5C18E4C9, 0x4F48173D, 0xBD23943E],
    [0xF36E6F75, 0x0105EC76, 0x12551F82, 0xE03E9C81, 0x34F4F86A, 0xC69F7B69, 0xD5CF889D, 0x27A40B9E,
     0x79B737BA, 0x8BDCB4B9, 0x988C474D, 0x6AE7C44E, 0xBE2DA0A5, 0x4C4623A6, 0x5F16D052, 0xAD7D5351]
  ]

  // ---------------------------------------------------------------- division

  /** Addition of polynomials over the two-element field. */
  function Xor(a: bv32, b: bv32): (r: bv32) {
    a ^ b
  }

  /** One step of the division: shift the register by one bit and subtract the
      generator when a one falls out. */
  function Shift(c: bv32): (r: bv32) {
    if c & 1 == 1 then (c >> 1) ^ POLY else c >> 1
  }

  /** Bring the next message bit into the register. */
  function FeedBit(c: bv32, bit: bool): (r: bv32) {
    Shift(if bit then Xor(c, 1) else c)
  }

  function FeedBits(c: bv32, bits: seq<bool>): (r: bv32)
    decreases |bits|
  {
    if bits == [] then c else FeedBits(FeedBit(c, bits[0]), bits[1..])
  }

  /** The low `n` bits of a word in the order they are divided: least
      significant first. */
  function Bits(v: bv32, n: nat): (bits: seq<bool>)
    ensures |bits| == n
  {
    if n == 0 then [] else [v & 1 == 1] + Bits(v >> 1, n - 1)
  }

  /** The register after dividing a whole byte string, bit by bit. */
  function Crc(c: bv32, s: Bytes): (r: bv32)
    decreases |s|
  {
    if s == [] then c else FeedBits(Crc(c, s[..|s| - 1]), Bits(AsWord(s[|s| - 1]), 8))
  }

  /** Division steps with no message bits coming in. */
  function Shifts(c: bv32, n: nat): (r: bv32)
  {
    if n == 0 then c else Shift(Shifts(c, n - 1))
  }

  // ------------------------------------------------ the division is linear

  lemma XorParts(a: bv32, b: bv32)
    ensures (a ^ b) & 1 == (a & 1) ^ (b & 1)
    ensures (a ^ b) >> 1 == (a >> 1) ^ (b >> 1)
    ensures a & 1 == 0 || a & 1 == 1
  {
  }

  lemma XorRearranged(a: bv32, b: bv32, p: bv32)
    ensures (a ^ b) ^ p == (a ^ p) ^ b
    ensures (a ^ b) ^ p == a ^ (b ^ p)
    ensures (a ^ p) ^ (b ^ p) == a ^ b
    ensures a ^ 0 == a
  {
  }

  lemma XorLaws(a: bv32, b: bv32, p: bv32)
    ensures Xor(Xor(a, b), p) == Xor(Xor(a, p), b)
    ensures Xor(Xor(a, b), p) == Xor(a, Xor(b, p))
    ensures Xor(a, 0) == a
  {
    XorRearranged(a, b, p);
  }

  lemma RawShiftLinear(a: bv32, b: bv32)
    ensures Shift(a ^ b) == Shift(a) ^ Shift(b)
  {
    XorParts(a, b);
    XorParts(b, a);
    XorRearranged(a >> 1, b >> 1, POLY);
  }

  lemma ShiftLinear(a: bv32, b: bv32)
    ensures Shift(Xor(a, b)) == Xor(Shift(a), Shift(b))
  {
    hide Shift;
    RawShiftLinear(a, b);
  }

  lemma ShiftInjective(a: bv32, b: bv32)
    requires Shift(a) == Shift(b)
    ensures a == b
  {
  }

  lemma {:induction false} ShiftsLinear(a: bv32, b: bv32, n: nat)
    ensures Shifts(Xor(a, b), n) == Xor(Shifts(a, n), Shifts(b, n))
  {
    hide Shift, Xor;
    if n > 0 {
      ShiftsLinear(a, b, n - 1);
      ShiftLinear(Shifts(a, n - 1), Shifts(b, n - 1));
    }
  }

  lemma {:induction false} ShiftsInjective(a: bv32, b: bv32, n: nat)
    requires Shifts(a, n) == Shifts(b, n)
    ensures a == b
  {
    if n > 0 {
      ShiftInjective(Shifts(a, n - 1), Shifts(b, n - 1));
      ShiftsInjective(a, b, n - 1);
    }
  }

  lemma {:induction false} ShiftsCompose(c: bv32, m: nat, n: nat)
    ensures Shifts(Shifts(c, m), n) == Shifts(c, m + n)
  {
    hide Shift;
    if n > 0 {
      ShiftsCompose(c, m, n - 1);
    }
  }

  /** Bits above the low byte only move down: they meet no subtraction. */
  lemma HighBitsMoveDown(v: bv32)
    requires v & 0xFF == 0
    ensures Shifts(v, 8) == v >> 8
  {
    assert Shifts(v, 1) == v >> 1;
    assert Shifts(v, 2) == v >> 2;
    assert Shifts(v, 3) == v >> 3;
    assert Shifts(v, 4) == v >> 4;
    assert Shifts(v, 5) == v >> 5;
    assert Shifts(v, 6) == v >> 6;
    assert Shifts(v, 7) == v >> 7;
  }

  lemma SplitLowByte(v: bv32)
    ensures v == Xor(v & 0xFF, (v >> 8) << 8)
    ensures ((v >> 8) << 8) & 0xFF == 0 && ((v >> 8) << 8) >> 8 == v >> 8
  {
  }

  /** Eight steps on a whole register, from eight steps on its low byte. */
  lemma ShiftsByLowByte(v: bv32)
    ensures Shifts(v, 8) == Xor(Shifts(v & 0xFF, 8), v >> 8)
  {
    hide Shifts, Xor;
    SplitLowByte(v);
    ShiftsLinear(v & 0xFF, (v >> 8) << 8, 8);
    HighBitsMoveDown((v >> 8) << 8);
  }

  // ------------------------------------------------ a byte at a time

  lemma LowBitEnters(v: bv32)
    requires v <= 0xFF
    ensures v == Xor(v & 1, (v >> 1) << 1) && v >> 1 <= 0x7F
    ensures v & 1 == 0 || v & 1 == 1
    ensures Shift((v >> 1) << 1) == v >> 1
  {
  }

  /** Feed the lowest bit of `v`; the others stay pending one place lower. */
  lemma FeedOne(c: bv32, v: bv32)
    requires v <= 0xFF
    ensures Shift(Xor(c, v)) == Xor(FeedBit(c, v & 1 == 1), v >> 1)
  {
    LowBitEnters(v);
    FeedOneAux(c, v & 1, (v >> 1) << 1, v >> 1);
  }

  lemma FeedOneAux(c: bv32, bit: bv32, rest: bv32, later: bv32)
    requires bit == 0 || bit == 1
    requires Shift(rest) == later
    ensures Shift(Xor(c, Xor(bit, rest))) == Xor(FeedBit(c, bit == 1), later)
  {
    hide Shift, Xor;
    XorLaws(c, bit, rest);
    ShiftLinear(Xor(c, bit), rest);
  }

  function Down(v: bv32, n: nat): (r: bv32)
  {
    if n == 0 then v else Down(v >> 1, n - 1)
  }

  /** Feeding `n` bits one at a time, against adding them all at once and
      shifting: what has not been fed yet is still pending. */
  lemma {:induction false} FeedMany(c: bv32, v: bv32, n: nat)
    requires v <= 0xFF
    ensures Shifts(Xor(c, v), n) == Xor(FeedBits(c, Bits(v, n)), Down(v, n))
    decreases n, 1
  {
    if n > 0 {
      FeedOne(c, v);
      LowBitEnters(v);
      FeedManyStep(c, v, n);
    }
  }

  lemma {:induction false} FeedManyStep(c: bv32, v: bv32, n: nat)
    requires v <= 0xFF && v >> 1 <= 0x7F && n > 0
    requires Shift(Xor(c, v)) == Xor(FeedBit(c, v & 1 == 1), v >> 1)
    ensures Shifts(Xor(c, v), n) == Xor(FeedBits(c, Bits(v, n)), Down(v, n))
    decreases n, 0
  {
    var c' := FeedBit(c, v & 1 == 1);
    FeedMany(c', v >> 1, n - 1);
    hide Shift, Xor, FeedBit;
    ShiftsCompose(Xor(c, v), 1, n - 1);
    assert Shifts(Xor(c, v), 1) == Shift(Shifts(Xor(c, v), 0));
    assert Bits(v, n)[0] == (v & 1 == 1) && Bits(v, n)[1..] == Bits(v >> 1, n - 1);
  }

  lemma ByteFedOut(v: bv32)
    requires v <= 0xFF
    ensures Down(v, 8) == 0
  {
    assert Down(v, 8) == Down(v >> 1, 7) == Down(v >> 2, 6) == Down(v >> 3, 5) == Down(v >> 4, 4);
    assert Down(v >> 4, 4) == Down(v >> 5, 3) == Down(v >> 6, 2) == Down(v >> 7, 1) == v >> 8;
  }

  lemma FeedByte(c: bv32, b: Byte)
    ensures FeedBits(c, Bits(AsWord(b), 8)) == Shifts(Xor(c, AsWord(b)), 8)
  {
    hide Shift, Shifts, FeedBits, Bits, Down, AsWord;
    var v := AsWord(b);
    FeedMany(c, v, 8);
    ByteFedOut(v);
    XorLaws(FeedBits(c, Bits(v, 8)), 0, 0);
  }

  // ------------------------------------------------ the table

  function TableEntry(i: int): (r: bv32)
    requires 0 <= i < 0x100
  {
    TABLE[i / 16][i % 16]
  }

  function Shift8(c: bv32): (r: bv32) {
    Shift(Shift(Shift(Shift(Shift(Shift(Shift(Shift(c))))))))
  }

  lemma EightShifts(c: bv32)
    ensures Shifts(c, 8) == Shift8(c)
  {
    hide Shift;
    assert Shifts(c, 1) == Shift(c);
    assert Shifts(c, 2) == Shift(Shift(c));
    assert Shifts(c, 4) == Shift(Shift(Shifts(c, 2)));
    assert Shifts(c, 6) == Shift(Shift(Shifts(c, 4)));
  }

  lemma Sixteen(x: bv32, lo: bv32)
    requires lo <= x <= lo + 15 && lo <= 240
    ensures x == lo || x == lo + 1 || x == lo + 2 || x == lo + 3
         || x == lo + 4 || x == lo + 5 || x == lo + 6 || x == lo + 7
         || x == lo + 8 || x == lo + 9 || x == lo + 10 || x == lo + 11
         || x == lo + 12 || x == lo + 13 || x == lo + 14 || x == lo + 15
  {
  }

  lemma Row0(x: bv32)
    requires 0 <= x <= 15
    ensures 0 <= x as int < 0x100 && TableEntry(x as int) == Shift8(x)
  {
    Sixteen(x, 0);
  }

  lemma Row1(x: bv32)
    requires 16 <= x <= 31
    ensures 0 <= x as int < 0x100 && TableEntry(x as int) == Shift8(x)
  {
    Sixteen(x, 16);
  }

  lemma Row2(x: bv32)
    requires 32 <= x <= 47
    ensures 0 <= x as int < 0x100 && TableEntry(x as int) == Shift8(x)
  {
    Sixteen(x, 32);
  }

  lemma Row3(x: bv32)
    requires 48 <= x <= 63
    ensures 0 <= x as int < 0x100 && TableEntry(x as int) == Shift8(x)
  {
    Sixteen(x, 48);
  }

  lemma Row4(x: bv32)
    requires 64 <= x <= 79
    ensures 0 <= x as int < 0x100 && TableEntry(x as int) == Shift8(x)
  {
    Sixteen(x, 64);
  }

  lemma Row5(x: bv32)
    requires 80 <= x <= 95
    ensures 0 <= x as int < 0x100 && TableEntry(x as int) == Shift8(x)
  {
    Sixteen(x, 80);
  }

  lemma Row6(x: bv32)
    requires 96 <= x <= 111
    ensures 0 <= x as int < 0x100 && TableEntry(x as int) == Shift8(x)
  {
    Sixteen(x, 96);
  }

  lemma Row7(x: bv32)
    requires 112 <= x <= 127
    ensures 0 <= x as int < 0x100 && TableEntry(x as int) == Shift8(x)
  {
    Sixteen(x, 112);
  }

  lemma Row8(x: bv32)
    requires 128 <= x <= 143
    ensures 0 <= x as int < 0x100 && TableEntry(x as int) == Shift8(x)
  {
    Sixteen(x, 128);
  }

  lemma Row9(x: bv32)
    requires 144 <= x <= 159
    ensures 0 <= x as int < 0x100 && TableEntry(x as int) == Shift8(x)
  {
    Sixteen(x, 144);
  }

  lemma Row10(x: bv32)
    requires 160 <= x <= 175
    ensures 0 <= x as int < 0x100 && TableEntry(x as int) == Shift8(x)
  {
    Sixteen(x, 160);
  }

  lemma Row11(x: bv32)
    requires 176 <= x <= 191
    ensures 0 <= x as int < 0x100 && TableEntry(x as int) == Shift8(x)
  {
    Sixteen(x, 176);
  }

  lemma Row12(x: bv32)
    requires 192 <= x <= 207
    ensures 0 <= x as int < 0x100 && TableEntry(x as int) == Shift8(x)
  {
    Sixteen(x, 192);
  }

  lemma Row13(x: bv32)
    requires 208 <= x <= 223
    ensures 0 <= x as int < 0x100 && TableEntry(x as int) == Shift8(x)
  {
    Sixteen(x, 208);
  }

  lemma Row14(x: bv32)
    requires 224 <= x <= 239
    ensures 0 <= x as int < 0x100 && TableEntry(x as int) == Shift8(x)
  {
    Sixteen(x, 224);
  }

  lemma Row15(x: bv32)
    requires 240 <= x <= 255
    ensures 0 <= x as int < 0x100 && TableEntry(x as int) == Shift8(x)
  {
    Sixteen(x, 240);
  }

  /** Every table entry is the remainder of its own index. */
  lemma TableIsDivision(x: bv32)
    requires x <= 0xFF
    ensures 0 <= x as int < 0x100 && TableEntry(x as int) == Shifts(x, 8)
  {
    hide Shift8, TableEntry, Shifts;
    EightShifts(x);
    if x <= 15 { Row0(x); }
    else if x <= 31 { Row1(x); }
    else if x <= 47 { Row2(x); }
    else if x <= 63 { Row3(x); }
    else if x <= 79 { Row4(x); }
    else if x <= 95 { Row5(x); }
    else if x <= 111 { Row6(x); }
    else if x <= 127 { Row7(x); }
    else if x <= 143 { Row8(x); }
    else if x <= 159 { Row9(x); }
    else if x <= 175 { Row10(x); }
    else if x <= 191 { Row11(x); }
    else if x <= 207 { Row12(x); }
    else if x <= 223 { Row13(x); }
    else if x <= 239 { Row14(x); }
    else { Row15(x); }
  }

  lemma Masked(x: bv32)
    ensures x & 0xFF <= 0xFF
  {
  }

  lemma ShiftedOut(c: bv32, v: bv32)
    requires v <= 0xFF
    ensures Xor(c, v) >> 8 == c >> 8
  {
  }

  /** One round of the program's loop. */
  function TableRound(c: bv32, b: Byte): (r: bv32)
  {
    var x := Xor(c, AsWord(b)) & 0xFF;
    Masked(Xor(c, AsWord(b)));
    TableIsDivision(x);
    Xor(TableEntry(x as int), c >> 8)
  }

  /** One round of the table loop divides eight message bits. */
  lemma TableRoundDivides(c: bv32, b: Byte)
    ensures TableRound(c, b) == FeedBits(c, Bits(AsWord(b), 8))
  {
    hide TableEntry, Shifts, FeedBits, Bits, Xor, Shift, AsWord;
    var v := Xor(c, AsWord(b));
    FeedByte(c, b);
    Masked(v);
    TableIsDivision(v & 0xFF);
    ShiftsByLowByte(v);
    ShiftedOut(c, AsWord(b));
  }

  /** The program's loop: one table look-up per byte. */
  method Update(seed: bv32, buf: Bytes) returns (crc: bv32)
    ensures crc == Crc(seed, buf)
  {
    hide TableRound, FeedBits, Bits, AsWord;
    crc := seed;
    for i := 0 to |buf|
      invariant crc == Crc(seed, buf[..i])
    {
      TableRoundDivides(crc, buf[i]);
      assert buf[..i + 1][..i] == buf[..i];
      crc := TableRound(crc, buf[i]);
    }
    assert buf[..|buf|] == buf;
  }

  // ------------------------------------------------ whole strings

  lemma {:induction false} CrcComposes(c: bv32, s: Bytes, t: Bytes)
    ensures Crc(c, s + t) == Crc(Crc(c, s), t)
    decreases |t|
  {
    hide FeedBits, Bits, AsWord;
    if t == [] {
      assert s + t == s;
    } else {
      var init := t[..|t| - 1];
      CrcComposes(c, s, init);
      assert (s + t)[..|s + t| - 1] == s + init;
      assert (s + t)[|s + t| - 1] == t[|t| - 1];
    }
  }

  /** The division never merges two registers: a difference made once stays. */
  lemma {:induction false} CrcInjective(c: bv32, d: bv32, s: Bytes)
    requires Crc(c, s) == Crc(d, s)
    ensures c == d
    decreases |s|
  {
    hide FeedBits, Bits, Shifts, Xor, AsWord;
    if s != [] {
      var init, b := s[..|s| - 1], s[|s| - 1];
      FeedByte(Crc(c, init), b);
      FeedByte(Crc(d, init), b);
      FeedByteInjective(Crc(c, init), Crc(d, init), AsWord(b));
      CrcInjective(c, d, init);
    }
  }

  lemma XorCancels(c: bv32, d: bv32, v: bv32)
    requires Xor(c, v) == Xor(d, v)
    ensures c == d
  {
  }

  lemma FeedByteInjective(c: bv32, d: bv32, v: bv32)
    requires Shifts(Xor(c, v), 8) == Shifts(Xor(d, v), 8)
    ensures c == d
  {
    hide Xor, Shifts;
    ShiftsInjective(Xor(c, v), Xor(d, v), 8);
    XorCancels(c, d, v);
  }

  // ------------------------------------------------ the four bytes at the end

  /** A byte in front of the bytes that follow it, as a little-endian word. */
  function Join(b: Byte, rest: bv32): (w: bv32) {
    Xor(AsWord(b), rest << 8)
  }

  function Word(s: Bytes): (w: bv32)
    requires |s| == 4
  {
    Join(s[0], Join(s[1], Join(s[2], Join(s[3], 0))))
  }

  function Low(w: bv32): (b: Byte) {
    Masked(w);
    FromWord(w & 0xFF)
  }

  function Upper(w: bv32): (r: bv32) {
    w >> 8
  }

  /** The bytes of `crc32c_finalize`'s result as they lie in the footer: the
      complement of the register, least significant byte first. */
  function Finalize(c: bv32): (s: Bytes)
    ensures |s| == 4
  {
    var n := !c;
    [Low(n), Low(Upper(n)), Low(Upper(Upper(n))), Low(Upper(Upper(Upper(n))))]
  }

  lemma JoinedParts(v: bv32, rest: bv32)
    requires v <= 0xFF && rest <= 0xFFFFFF
    ensures (v ^ (rest << 8)) & 0xFF == v
    ensures (v ^ (rest << 8)) >> 8 == rest
  {
  }

  lemma JoinedBounds(v: bv32, rest: bv32)
    requires v <= 0xFF
    ensures rest <= 0 ==> v ^ (rest << 8) <= 0xFF
    ensures rest <= 0xFF ==> v ^ (rest << 8) <= 0xFFFF
    ensures rest <= 0xFFFF ==> v ^ (rest << 8) <= 0xFFFFFF
  {
  }

  lemma XorParted(v: bv32, rest: bv32)
    requires v <= 0xFF && rest <= 0xFFFFFF
    ensures Xor(v, rest << 8) & 0xFF == v && Xor(v, rest << 8) >> 8 == rest
  {
    JoinedParts(v, rest);
  }

  lemma JoinTakenApart(b: Byte, rest: bv32)
    requires rest <= 0xFFFFFF
    ensures Low(Join(b, rest)) == b && Upper(Join(b, rest)) == rest
  {
    hide AsWord, Xor;
    XorParted(AsWord(b), rest);
  }

  lemma JoinBounds(b: Byte, rest: bv32)
    ensures rest <= 0 ==> Join(b, rest) <= 0xFF
    ensures rest <= 0xFF ==> Join(b, rest) <= 0xFFFF
    ensures rest <= 0xFFFF ==> Join(b, rest) <= 0xFFFFFF
  {
    hide AsWord;
    JoinedBounds(AsWord(b), rest);
  }

  lemma ShiftedUp(rest: bv32)
    requires rest <= 0xFFFFFF
    ensures (rest << 8) & 0xFF == 0 && (rest << 8) >> 8 == rest
  {
  }

  /** Dividing a byte leaves the bytes behind it in place. */
  lemma DivideFirst(c: bv32, b: Byte, rest: bv32)
    requires rest <= 0xFFFFFF
    ensures Shifts(Xor(c, Join(b, rest)), 8) == Xor(Crc(c, [b]), rest)
  {
    hide Xor, Shifts, FeedBits, Bits, AsWord;
    var v := AsWord(b);
    ShiftedUp(rest);
    HighBitsMoveDown(rest << 8);
    XorLaws(c, v, rest << 8);
    ShiftsLinear(Xor(c, v), rest << 8, 8);
    FeedByte(c, b);
    assert [b][..0] == [] && Crc(c, []) == c;
  }

  lemma WordBounds(s: Bytes)
    requires |s| == 4
    ensures Join(s[3], 0) <= 0xFF
    ensures Join(s[2], Join(s[3], 0)) <= 0xFFFF
    ensures Join(s[1], Join(s[2], Join(s[3], 0))) <= 0xFFFFFF
  {
    hide Join;
    JoinBounds(s[3], 0);
    JoinBounds(s[2], Join(s[3], 0));
    JoinBounds(s[1], Join(s[2], Join(s[3], 0)));
  }

  /** Dividing four bytes is adding them as one word and shifting it out. */
  lemma DivideWord(c: bv32, s: Bytes)
    requires |s| == 4
    ensures Crc(c, s) == Shifts(Xor(c, Word(s)), 32)
  {
    hide Xor, Join, Crc, Shifts;
    WordBounds(s);
    var w3 := Join(s[3], 0);
    var w2 := Join(s[2], w3);
    var w1 := Join(s[1], w2);
    var c1 := Crc(c, [s[0]]);
    var c2 := Crc(c1, [s[1]]);
    var c3 := Crc(c2, [s[2]]);
    DivideFirst(c, s[0], w1);
    DivideFirst(c1, s[1], w2);
    DivideFirst(c2, s[2], w3);
    DivideFirst(c3, s[3], 0);
    XorLaws(Crc(c3, [s[3]]), 0, 0);
    var x := Xor(c, Word(s));
    ShiftsCompose(x, 8, 8);
    ShiftsCompose(x, 16, 8);
    ShiftsCompose(x, 24, 8);
    CrcComposes(c, [s[0]], [s[1]]);
    CrcComposes(c, [s[0]] + [s[1]], [s[2]]);
    CrcComposes(c, [s[0]] + [s[1]] + [s[2]], [s[3]]);
    assert s == [s[0]] + [s[1]] + [s[2]] + [s[3]];
  }

  lemma JoinInjective(b: Byte, rest: bv32, b': Byte, rest': bv32)
    requires rest <= 0xFFFFFF && rest' <= 0xFFFFFF
    requires Join(b, rest) == Join(b', rest')
    ensures b == b' && rest == rest'
  {
    hide Join, Low, Upper;
    JoinTakenApart(b, rest);
    JoinTakenApart(b', rest');
  }

  /** Different bytes make different words. */
  lemma WordInjective(s: Bytes, t: Bytes)
    requires |s| == |t| == 4 && Word(s) == Word(t)
    ensures s == t
  {
    hide Join;
    WordBounds(s);
    WordBounds(t);
    JoinInjective(s[0], Join(s[1], Join(s[2], Join(s[3], 0))), t[0], Join(t[1], Join(t[2], Join(t[3], 0))));
    JoinInjective(s[1], Join(s[2], Join(s[3], 0)), t[1], Join(t[2], Join(t[3], 0)));
    JoinInjective(s[2], Join(s[3], 0), t[2], Join(t[3], 0));
    JoinInjective(s[3], 0, t[3], 0);
  }

  lemma JoinedLow(n: bv32)
    ensures Join(Low(n), Upper(n)) == n
  {
    hide AsWord;
    Masked(n);
    WordRoundTrip(n & 0xFF);
    JoinedBack(n);
  }

  lemma JoinedBack(n: bv32)
    ensures (n & 0xFF) ^ ((n >> 8) << 8) == n
  {
  }

  lemma NothingAbove(n: bv32)
    ensures Upper(Upper(Upper(Upper(n)))) == 0
  {
  }

  /** The footer's bytes, read as a word, are the complemented register. */
  lemma FinalizeIsComplement(c: bv32)
    ensures Word(Finalize(c)) == !c
  {
    hide Join, Low, Upper;
    var n := !c;
    JoinedLow(n);
    JoinedLow(Upper(n));
    JoinedLow(Upper(Upper(n)));
    JoinedLow(Upper(Upper(Upper(n))));
    NothingAbove(n);
  }

  lemma SumWithComplement(c: bv32)
    ensures c ^ !c == 0xFFFFFFFF
  {
  }

  lemma Complemented(c: bv32, w: bv32)
    ensures Xor(c, w) == 0xFFFFFFFF <==> w == !c
  {
    SumWithComplement(c);
    assert Xor(c, !c) == 0xFFFFFFFF;
    hide Xor;
    if Xor(c, w) == 0xFFFFFFFF {
      XorCommutes(c, w);
      XorCommutes(c, !c);
      XorCancels(w, !c, c);
    }
  }

  lemma SeedShiftsToValidator()
    ensures Shifts(0xFFFFFFFF, 32) == VALIDATOR
  {
    EightShifts(0xFFFFFFFF);
    EightShifts(0xAD82ACAE);
    EightShifts(0x0E9E882D);
    EightShifts(0x9F9B5C85);
    ShiftsCompose(0xFFFFFFFF, 8, 8);
    ShiftsCompose(0xFFFFFFFF, 16, 8);
    ShiftsCompose(0xFFFFFFFF, 24, 8);
    hide Shifts;
    assert Shift8(0xFFFFFFFF) == 0xAD82ACAE;
    assert Shift8(0xAD82ACAE) == 0x0E9E882D;
    assert Shift8(0x0E9E882D) == 0x9F9B5C85;
    assert Shift8(0x9F9B5C85) == 0xB798B438;
  }

  /** After any prefix, exactly one four-byte suffix leaves the register at the
      validator constant: the finalized CRC of that prefix. */
  lemma ResidueIffFinalized(c: bv32, s: Bytes)
    requires |s| == 4
    ensures Crc(c, s) == VALIDATOR <==> s == Finalize(c)
  {
    hide Crc, Shifts, Word, Xor, Finalize;
    DivideWord(c, s);
    SeedShiftsToValidator();
    Complemented(c, Word(s));
    FinalizeIsComplement(c);
    if Crc(c, s) == VALIDATOR {
      ShiftsInjective(Xor(c, Word(s)), 0xFFFFFFFF, 32);
      WordInjective(s, Finalize(c));
    }
  }

  lemma WordsApart(c: bv32, s: Bytes, t: Bytes)
    requires |s| == |t| == 4 && s != t
    ensures Crc(c, s) != Crc(c, t)
  {
    hide Crc, Shifts, Word, Xor;
    if Crc(c, s) == Crc(c, t) {
      DivideWord(c, s);
      DivideWord(c, t);
      ShiftsInjective(Xor(c, Word(s)), Xor(c, Word(t)), 32);
      XorCommutes(c, Word(s));
      XorCommutes(c, Word(t));
      XorCancels(Word(s), Word(t), c);
      WordInjective(s, t);
    }
  }

  /** A change confined to up to four neighbouring bytes always changes the CRC. */
  lemma BurstDetected(c: bv32, before: Bytes, s: Bytes, t: Bytes, after: Bytes)
    requires |s| == |t| <= 4 && s != t
    ensures Crc(c, before + s + after) != Crc(c, before + t + after)
  {
    hide Crc;
    var d := Crc(c, before);
    var pad := Zeros(4 - |s|);
    assert (s + pad)[..|s|] == s && (t + pad)[..|t|] == t;
    WordsApart(d, s + pad, t + pad);
    CrcComposes(d, s, pad);
    CrcComposes(d, t, pad);
    CrcComposes(c, before, s);
    CrcComposes(c, before, t);
    CrcComposes(c, before + s, after);
    CrcComposes(c, before + t, after);
    if Crc(c, before + s + after) == Crc(c, before + t + after) {
      CrcInjective(Crc(d, s), Crc(d, t), after);
    }
  }

  lemma XorCommutes(a: bv32, b: bv32)
    ensures Xor(a, b) == Xor(b, a)
  {
  }
}
