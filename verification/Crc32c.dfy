/**
  The command checksum of the send stream: CRC-32C (the Castagnoli polynomial of section 12.1 of RFC 3720),
  used with seed 0 and without a final complement.

  The program works a byte at a time through a table of 256 words. The reference definition here is bit serial:
  a 32-bit shift register that is fed one message bit at a time, least significant bit of each byte first.
  `Register` is the shift register and its algebra, `Crc32c` the table, the loop and what the checksum detects.
  */
module Register {
  // The generator polynomial without its leading term, reflected: bit i is the coefficient of x^(31-i).
  const POLYNOMIAL: bv32 := 0x82F63B78

  function Xor(a: bv32, b: bv32): bv32 { a ^ b }

  function Shr(a: bv32): bv32 { a >> 1 }

  predicate Low(a: bv32) { a & 1 == 1 }

  function Bit(b: bool): bv32 { if b then 1 else 0 }

  // One shift of the register.
  function Step(s: bv32): bv32 {
    if Low(s) then Xor(Shr(s), POLYNOMIAL) else Shr(s)
  }

  function StepN(s: bv32, n: nat): bv32
    decreases n
  {
    if n == 0 then s else StepN(Step(s), n - 1)
  }

  // The register after it has been fed the given message bits, first bit first.
  function Feed(s: bv32, bits: seq<bool>): bv32
    decreases |bits|
  {
    if bits == [] then s else Feed(Step(Xor(s, Bit(bits[0]))), bits[1..])
  }

  // The n low bits of a word, least significant first.
  function Bits(x: bv32, n: nat): (r: seq<bool>)
    ensures |r| == n
  {
    if n == 0 then [] else [Low(x)] + Bits(Shr(x), n - 1)
  }

  function Zip(a: seq<bool>, b: seq<bool>): (r: seq<bool>)
    requires |a| == |b|
    ensures |r| == |a|
  {
    seq(|a|, i requires 0 <= i < |a| => a[i] != b[i])
  }

  // ---- laws of single words (each a fact about 32-bit vectors only)

  lemma XorLaws(a: bv32, b: bv32, c: bv32)
    ensures Xor(Xor(a, b), c) == Xor(a, Xor(b, c))
    ensures Xor(a, b) == Xor(b, a)
    ensures Xor(a, 0) == a
    ensures Xor(a, a) == 0
  {
  }

  lemma XorCancel(a: bv32, b: bv32)
    ensures Xor(Xor(a, b), b) == a
    ensures Xor(a, b) == 0 ==> a == b
  {
  }

  lemma LowXor(a: bv32, b: bv32)
    ensures Low(Xor(a, b)) == (Low(a) != Low(b))
  {
  }

  lemma ShrXor(a: bv32, b: bv32)
    ensures Shr(Xor(a, b)) == Xor(Shr(a), Shr(b))
  {
  }

  lemma BitXor(p: bool, q: bool)
    ensures Xor(Bit(p), Bit(q)) == Bit(p != q)
  {
  }

  lemma ShrClearLow(v: bv32)
    ensures var w := Xor(v, Bit(Low(v))); Shr(w) == Shr(v) && !Low(w)
  {
  }

  // Four words combined crosswise.
  lemma XorSwap(a: bv32, b: bv32, c: bv32, d: bv32)
    ensures Xor(Xor(a, b), Xor(c, d)) == Xor(Xor(a, c), Xor(b, d))
  {
    hide Xor;
    XorLaws(a, b, Xor(c, d));
    XorLaws(b, c, d);
    XorLaws(c, b, d);
    XorLaws(a, c, Xor(b, d));
  }

  // ---- the register is a linear map of its state and the message bits

  lemma StepAsXor(s: bv32)
    ensures Step(s) == Xor(Shr(s), if Low(s) then POLYNOMIAL else 0)
  {
    hide Xor, Shr, Low;
    XorLaws(Shr(s), 0, 0);
  }

  lemma StepLinear(a: bv32, b: bv32)
    ensures Step(Xor(a, b)) == Xor(Step(a), Step(b))
  {
    hide Xor, Shr, Low;
    LowXor(a, b);
    ShrXor(a, b);
    XorSwap(Shr(a), if Low(a) then POLYNOMIAL else 0, Shr(b), if Low(b) then POLYNOMIAL else 0);
    StepAsXor(a);
    StepAsXor(b);
    StepAsXor(Xor(a, b));
    XorLaws(POLYNOMIAL, 0, 0);
    XorLaws(0, POLYNOMIAL, 0);
    XorLaws(0, 0, 0);
  }

  lemma {:induction false} FeedLinear(s: bv32, t: bv32, u: seq<bool>, v: seq<bool>)
    requires |u| == |v|
    ensures Feed(Xor(s, t), Zip(u, v)) == Xor(Feed(s, u), Feed(t, v))
    decreases |u|
  {
    hide Xor, Step, Bit;
    if u != [] {
      var a, b := Xor(s, Bit(u[0])), Xor(t, Bit(v[0]));
      BitXor(u[0], v[0]);
      XorSwap(s, t, Bit(u[0]), Bit(v[0]));
      StepLinear(a, b);
      assert Zip(u, v)[1..] == Zip(u[1..], v[1..]);
      FeedLinear(Step(a), Step(b), u[1..], v[1..]);
    }
  }

  lemma {:induction false} FeedConcat(s: bv32, u: seq<bool>, v: seq<bool>)
    ensures Feed(s, u + v) == Feed(Feed(s, u), v)
    decreases |u|
  {
    hide Xor, Step, Bit;
    if u == [] {
      assert u + v == v;
    } else {
      assert (u + v)[1..] == u[1..] + v;
      FeedConcat(Step(Xor(s, Bit(u[0]))), u[1..], v);
    }
  }

  // ---- and for fixed message bits it is a bijection of the state

  // Undoes one shift. The generator's reflected top bit is set, so bit 31 tells whether it was added.
  function UnStep(t: bv32): bv32 {
    if t & 0x8000_0000 != 0 then (Xor(t, POLYNOMIAL) << 1) | 1 else t << 1
  }

  lemma UnStepStep(s: bv32)
    ensures UnStep(Step(s)) == s
  {
  }

  lemma StepUnStep(t: bv32)
    ensures Step(UnStep(t)) == t
  {
    hide Xor, Shr, Low;
    TopXor(t);
    XorCancel(t, POLYNOMIAL);
    ShlShr(Xor(t, POLYNOMIAL));
    ShlShr(t);
  }

  lemma TopXor(t: bv32)
    ensures (Xor(t, POLYNOMIAL) & 0x8000_0000 == 0) == (t & 0x8000_0000 != 0)
  {
  }

  lemma ShlShr(u: bv32)
    ensures Low((u << 1) | 1) && !Low(u << 1)
    ensures u & 0x8000_0000 == 0 ==> Shr((u << 1) | 1) == u && Shr(u << 1) == u
  {
  }

  lemma {:induction false} FeedInjective(s: bv32, t: bv32, bits: seq<bool>)
    requires Feed(s, bits) == Feed(t, bits)
    ensures s == t
    decreases |bits|
  {
    hide Xor, Step, Bit, UnStep;
    if bits != [] {
      var a, b := Xor(s, Bit(bits[0])), Xor(t, Bit(bits[0]));
      FeedInjective(Step(a), Step(b), bits[1..]);
      UnStepStep(a);
      UnStepStep(b);
      XorCancel(s, Bit(bits[0]));
      XorCancel(t, Bit(bits[0]));
    }
  }

  lemma {:induction false} FeedSurjective(t: bv32, bits: seq<bool>) returns (s: bv32)
    ensures Feed(s, bits) == t
    decreases |bits|
  {
    hide Xor, Step, Bit, UnStep;
    if bits == [] {
      s := t;
    } else {
      var r := FeedSurjective(t, bits[1..]);
      s := Xor(UnStep(r), Bit(bits[0]));
      XorCancel(UnStep(r), Bit(bits[0]));
      StepUnStep(r);
    }
  }

  // ---- the register as 32 bits

  function Reg(s: bv32): (r: seq<bool>)
    ensures |r| == 32
  {
    Bits(s, 32)
  }

  lemma {:induction false} BitsXor(x: bv32, y: bv32, n: nat)
    ensures Bits(Xor(x, y), n) == Zip(Bits(x, n), Bits(y, n))
    decreases n
  {
    hide Xor, Shr, Low;
    if n > 0 {
      LowXor(x, y);
      ShrXor(x, y);
      BitsXor(Shr(x), Shr(y), n - 1);
    }
  }

  function ShrN(x: bv32, n: nat): bv32
    decreases n
  {
    if n == 0 then x else ShrN(Shr(x), n - 1)
  }

  lemma ShrEight(x: bv32, n: nat)
    ensures ShrN(x, n + 8) == ShrN(x >> 8, n)
  {
    UnfoldShrN(x, n);
    ShrByte(x);
  }

  lemma ShrByte(x: bv32)
    ensures Shr(Shr(Shr(Shr(Shr(Shr(Shr(Shr(x)))))))) == x >> 8
    ensures (((x >> 8) >> 8) >> 8) >> 8 == 0
  {
  }

  lemma {:induction false} UnfoldShrN(x: bv32, n: nat)
    ensures ShrN(x, n + 8) == ShrN(Shr(Shr(Shr(Shr(Shr(Shr(Shr(Shr(x)))))))), n)
  {
    hide Shr;
    assert ShrN(x, n + 8) == ShrN(Shr(x), n + 7) == ShrN(Shr(Shr(x)), n + 6) == ShrN(Shr(Shr(Shr(x))), n + 5);
    assert ShrN(Shr(Shr(Shr(x))), n + 5) == ShrN(Shr(Shr(Shr(Shr(x)))), n + 4) ==
        ShrN(Shr(Shr(Shr(Shr(Shr(x))))), n + 3);
    assert ShrN(Shr(Shr(Shr(Shr(Shr(x))))), n + 3) == ShrN(Shr(Shr(Shr(Shr(Shr(Shr(x)))))), n + 2);
    assert ShrN(Shr(Shr(Shr(Shr(Shr(Shr(x)))))), n + 2) == ShrN(Shr(Shr(Shr(Shr(Shr(Shr(Shr(x))))))), n + 1);
  }

  lemma {:induction false} ShrAll(x: bv32)
    ensures ShrN(x, 32) == 0
  {
    ShrByte(x);
    ShrEight(x, 24);
    ShrEight(x >> 8, 16);
    ShrEight((x >> 8) >> 8, 8);
    ShrEight(((x >> 8) >> 8) >> 8, 0);
  }

  lemma {:induction false} BitsAbove(x: bv32, n: nat)
    requires ShrN(x, n) == 0
    ensures Bits(x, n + 1) == Bits(x, n) + [false]
    decreases n
  {
    if n == 0 {
      assert !Low(0);
    } else {
      hide Shr, Low;
      BitsAbove(Shr(x), n - 1);
    }
  }

  lemma RegShr(x: bv32)
    ensures Reg(Shr(x)) == Reg(x)[1..] + [false]
  {
    hide Shr, Low;
    ShrAll(x);
    BitsAbove(Shr(x), 31);
  }

  lemma RegXor(x: bv32, y: bv32)
    ensures Reg(Xor(x, y)) == Zip(Reg(x), Reg(y))
  {
    hide Xor;
    BitsXor(x, y, 32);
  }

  // The shift register in terms of its bits.
  lemma RegStep(s: bv32)
    ensures Reg(Step(s)) ==
            if Reg(s)[0] then Zip(Reg(s)[1..] + [false], Reg(POLYNOMIAL)) else Reg(s)[1..] + [false]
  {
    hide Shr, Low, Xor;
    RegShr(s);
    BitsXor(Shr(s), POLYNOMIAL, 32);
  }
}

module Crc32c {
  import opened Register

  type byte = bv8

  // Selects one of sixteen words by a four-bit index.
  function Pick(lo: bv8,
                e0: bv32, e1: bv32, e2: bv32, e3: bv32, e4: bv32, e5: bv32, e6: bv32, e7: bv32,
                e8: bv32, e9: bv32, eA: bv32, eB: bv32, eC: bv32, eD: bv32, eE: bv32, eF: bv32): bv32
  {
    match lo
    case 0 => e0
    case 1 => e1
    case 2 => e2
    case 3 => e3
    case 4 => e4
    case 5 => e5
    case 6 => e6
    case 7 => e7
    case 8 => e8
    case 9 => e9
    case 10 => eA
    case 11 => eB
    case 12 => eC
    case 13 => eD
    case 14 => eE
    case _ => eF
  }

  // The program's table, sixteen words for each high nibble of the index.
  function Row0(lo: bv8): bv32 {
    Pick(lo,
      0x00000000, 0xF26B8303, 0xE13B70F7, 0x1350F3F4,
      0xC79A971F, 0x35F1141C, 0x26A1E7E8, 0xD4CA64EB,
      0x8AD958CF, 0x78B2DBCC, 0x6BE22838, 0x9989AB3B,
      0x4D43CFD0, 0xBF284CD3, 0xAC78BF27, 0x5E133C24)
  }

  function Row1(lo: bv8): bv32 {
    Pick(lo,
      0x105EC76F, 0xE235446C, 0xF165B798, 0x030E349B,
      0xD7C45070, 0x25AFD373, 0x36FF2087, 0xC494A384,
      0x9A879FA0, 0x68EC1CA3, 0x7BBCEF57, 0x89D76C54,
      0x5D1D08BF, 0xAF768BBC, 0xBC267848, 0x4E4DFB4B)
  }

  function Row2(lo: bv8): bv32 {
    Pick(lo,
      0x20BD8EDE, 0xD2D60DDD, 0xC186FE29, 0x33ED7D2A,
      0xE72719C1, 0x154C9AC2, 0x061C6936, 0xF477EA35,
      0xAA64D611, 0x580F5512, 0x4B5FA6E6, 0xB93425E5,
      0x6DFE410E, 0x9F95C20D, 0x8CC531F9, 0x7EAEB2FA)
  }

  function Row3(lo: bv8): bv32 {
    Pick(lo,
      0x30E349B1, 0xC288CAB2, 0xD1D83946, 0x23B3BA45,
      0xF779DEAE, 0x05125DAD, 0x1642AE59, 0xE4292D5A,
      0xBA3A117E, 0x4851927D, 0x5B016189, 0xA96AE28A,
      0x7DA08661, 0x8FCB0562, 0x9C9BF696, 0x6EF07595)
  }

  function Row4(lo: bv8): bv32 {
    Pick(lo,
      0x417B1DBC, 0xB3109EBF, 0xA0406D4B, 0x522BEE48,
      0x86E18AA3, 0x748A09A0, 0x67DAFA54, 0x95B17957,
      0xCBA24573, 0x39C9C670, 0x2A993584, 0xD8F2B687,
      0x0C38D26C, 0xFE53516F, 0xED03A29B, 0x1F682198)
  }

  function Row5(lo: bv8): bv32 {
    Pick(lo,
      0x5125DAD3, 0xA34E59D0, 0xB01EAA24, 0x42752927,
      0x96BF4DCC, 0x64D4CECF, 0x77843D3B, 0x85EFBE38,
      0xDBFC821C, 0x2997011F, 0x3AC7F2EB, 0xC8AC71E8,
      0x1C661503, 0xEE0D9600, 0xFD5D65F4, 0x0F36E6F7)
  }

  function Row6(lo: bv8): bv32 {
    Pick(lo,
      0x61C69362, 0x93AD1061, 0x80FDE395, 0x72966096,
      0xA65C047D, 0x5437877E, 0x4767748A, 0xB50CF789,
      0xEB1FCBAD, 0x197448AE, 0x0A24BB5A, 0xF84F3859,
      0x2C855CB2, 0xDEEEDFB1, 0xCDBE2C45, 0x3FD5AF46)
  }

  function Row7(lo: bv8): bv32 {
    Pick(lo,
      0x7198540D, 0x83F3D70E, 0x90A324FA, 0x62C8A7F9,
      0xB602C312, 0x44694011, 0x5739B3E5, 0xA55230E6,
      0xFB410CC2, 0x092A8FC1, 0x1A7A7C35, 0xE811FF36,
      0x3CDB9BDD, 0xCEB018DE, 0xDDE0EB2A, 0x2F8B6829)
  }

  function Row8(lo: bv8): bv32 {
    Pick(lo,
      0x82F63B78, 0x709DB87B, 0x63CD4B8F, 0x91A6C88C,
      0x456CAC67, 0xB7072F64, 0xA457DC90, 0x563C5F93,
      0x082F63B7, 0xFA44E0B4, 0xE9141340, 0x1B7F9043,
      0xCFB5F4A8, 0x3DDE77AB, 0x2E8E845F, 0xDCE5075C)
  }

  function Row9(lo: bv8): bv32 {
    Pick(lo,
      0x92A8FC17, 0x60C37F14, 0x73938CE0, 0x81F80FE3,
      0x55326B08, 0xA759E80B, 0xB4091BFF, 0x466298FC,
      0x1871A4D8, 0xEA1A27DB, 0xF94AD42F, 0x0B21572C,
      0xDFEB33C7, 0x2D80B0C4, 0x3ED04330, 0xCCBBC033)
  }

  function RowA(lo: bv8): bv32 {
    Pick(lo,
      0xA24BB5A6, 0x502036A5, 0x4370C551, 0xB11B4652,
      0x65D122B9, 0x97BAA1BA, 0x84EA524E, 0x7681D14D,
      0x2892ED69, 0xDAF96E6A, 0xC9A99D9E, 0x3BC21E9D,
      0xEF087A76, 0x1D63F975, 0x0E330A81, 0xFC588982)
  }

  function RowB(lo: bv8): bv32 {
    Pick(lo,
      0xB21572C9, 0x407EF1CA, 0x532E023E, 0xA145813D,
      0x758FE5D6, 0x87E466D5, 0x94B49521, 0x66DF1622,
      0x38CC2A06, 0xCAA7A905, 0xD9F75AF1, 0x2B9CD9F2,
      0xFF56BD19, 0x0D3D3E1A, 0x1E6DCDEE, 0xEC064EED)
  }

  function RowC(lo: bv8): bv32 {
    Pick(lo,
      0xC38D26C4, 0x31E6A5C7, 0x22B65633, 0xD0DDD530,
      0x0417B1DB, 0xF67C32D8, 0xE52CC12C, 0x1747422F,
      0x49547E0B, 0xBB3FFD08, 0xA86F0EFC, 0x5A048DFF,
      0x8ECEE914, 0x7CA56A17, 0x6FF599E3, 0x9D9E1AE0)
  }

  function RowD(lo: bv8): bv32 {
    Pick(lo,
      0xD3D3E1AB, 0x21B862A8, 0x32E8915C, 0xC083125F,
      0x144976B4, 0xE622F5B7, 0xF5720643, 0x07198540,
      0x590AB964, 0xAB613A67, 0xB831C993, 0x4A5A4A90,
      0x9E902E7B, 0x6CFBAD78, 0x7FAB5E8C, 0x8DC0DD8F)
  }

  function RowE(lo: bv8): bv32 {
    Pick(lo,
      0xE330A81A, 0x115B2B19, 0x020BD8ED, 0xF0605BEE,
      0x24AA3F05, 0xD6C1BC06, 0xC5914FF2, 0x37FACCF1,
      0x69E9F0D5, 0x9B8273D6, 0x88D28022, 0x7AB90321,
      0xAE7367CA, 0x5C18E4C9, 0x4F48173D, 0xBD23943E)
  }

  function RowF(lo: bv8): bv32 {
    Pick(lo,
      0xF36E6F75, 0x0105EC76, 0x12551F82, 0xE03E9C81,
      0x34F4F86A, 0xC69F7B69, 0xD5CF889D, 0x27A40B9E,
      0x79B737BA, 0x8BDCB4B9, 0x988C474D, 0x6AE7C44E,
      0xBE2DA0A5, 0x4C4623A6, 0x5F16D052, 0xAD7D5351)
  }

  function Row(hi: bv8, lo: bv8): bv32 {
    match hi
    case 0 => Row0(lo)
    case 1 => Row1(lo)
    case 2 => Row2(lo)
    case 3 => Row3(lo)
    case 4 => Row4(lo)
    case 5 => Row5(lo)
    case 6 => Row6(lo)
    case 7 => Row7(lo)
    case 8 => Row8(lo)
    case 9 => Row9(lo)
    case 10 => RowA(lo)
    case 11 => RowB(lo)
    case 12 => RowC(lo)
    case 13 => RowD(lo)
    case 14 => RowE(lo)
    case _ => RowF(lo)
  }

  function Crc32q(i: byte): bv32 { Row(i >> 4, i & 15) }

  // One turn of the program's loop: the next table word, combined with the rest of the register.
  function TableUpdate(crc: bv32, val: byte): bv32 {
    Crc32q((crc & 0xff) as byte ^ val) ^ (crc >> 8)
  }

  function Step8(s: bv32): bv32 {
    Step(Step(Step(Step(Step(Step(Step(Step(s))))))))
  }

  // ---- every table entry is eight shifts of its index: checked for a few entries of each row, and the table adds
  // up as the shifts do

  lemma LowEntries()
    ensures Row0(0) == Step8(0) && Row0(1) == Step8(1) && Row0(2) == Step8(2) && Row0(3) == Step8(3)
  {
  }

  lemma HighEntries()
    ensures Row0(4) == Step8(4) && Row0(8) == Step8(8) && Row0(12) == Step8(12)
  {
  }

  lemma FirstEntries0()
    ensures Row0(0) == Step8(0x00) && Row1(0) == Step8(0x10) && Row2(0) == Step8(0x20) && Row3(0) == Step8(0x30)
  {
  }

  lemma FirstEntries4()
    ensures Row4(0) == Step8(0x40) && Row5(0) == Step8(0x50) && Row6(0) == Step8(0x60) && Row7(0) == Step8(0x70)
  {
  }

  lemma FirstEntries8()
    ensures Row8(0) == Step8(0x80) && Row9(0) == Step8(0x90) && RowA(0) == Step8(0xA0) && RowB(0) == Step8(0xB0)
  {
  }

  lemma FirstEntriesC()
    ensures RowC(0) == Step8(0xC0) && RowD(0) == Step8(0xD0) && RowE(0) == Step8(0xE0) && RowF(0) == Step8(0xF0)
  {
  }

  lemma Row0Splits(lo: bv8) requires lo < 16 ensures Row0(lo) == Xor(Row0(lo & 12), Row0(lo & 3)) {}
  lemma Row1Splits(lo: bv8) requires lo < 16 ensures Row1(lo) == Xor(Row1(0), Row0(lo)) {}
  lemma Row2Splits(lo: bv8) requires lo < 16 ensures Row2(lo) == Xor(Row2(0), Row0(lo)) {}
  lemma Row3Splits(lo: bv8) requires lo < 16 ensures Row3(lo) == Xor(Row3(0), Row0(lo)) {}
  lemma Row4Splits(lo: bv8) requires lo < 16 ensures Row4(lo) == Xor(Row4(0), Row0(lo)) {}
  lemma Row5Splits(lo: bv8) requires lo < 16 ensures Row5(lo) == Xor(Row5(0), Row0(lo)) {}
  lemma Row6Splits(lo: bv8) requires lo < 16 ensures Row6(lo) == Xor(Row6(0), Row0(lo)) {}
  lemma Row7Splits(lo: bv8) requires lo < 16 ensures Row7(lo) == Xor(Row7(0), Row0(lo)) {}
  lemma Row8Splits(lo: bv8) requires lo < 16 ensures Row8(lo) == Xor(Row8(0), Row0(lo)) {}
  lemma Row9Splits(lo: bv8) requires lo < 16 ensures Row9(lo) == Xor(Row9(0), Row0(lo)) {}
  lemma RowASplits(lo: bv8) requires lo < 16 ensures RowA(lo) == Xor(RowA(0), Row0(lo)) {}
  lemma RowBSplits(lo: bv8) requires lo < 16 ensures RowB(lo) == Xor(RowB(0), Row0(lo)) {}
  lemma RowCSplits(lo: bv8) requires lo < 16 ensures RowC(lo) == Xor(RowC(0), Row0(lo)) {}
  lemma RowDSplits(lo: bv8) requires lo < 16 ensures RowD(lo) == Xor(RowD(0), Row0(lo)) {}
  lemma RowESplits(lo: bv8) requires lo < 16 ensures RowE(lo) == Xor(RowE(0), Row0(lo)) {}
  lemma RowFSplits(lo: bv8) requires lo < 16 ensures RowF(lo) == Xor(RowF(0), Row0(lo)) {}

  lemma Step8Linear(a: bv32, b: bv32)
    ensures Step8(Xor(a, b)) == Xor(Step8(a), Step8(b))
  {
    hide Step, Xor;
    StepLinear(a, b);
    StepLinear(Step(a), Step(b));
    StepLinear(Step(Step(a)), Step(Step(b)));
    StepLinear(Step(Step(Step(a))), Step(Step(Step(b))));
    StepLinear(Step(Step(Step(Step(a)))), Step(Step(Step(Step(b)))));
    StepLinear(Step(Step(Step(Step(Step(a))))), Step(Step(Step(Step(Step(b))))));
    StepLinear(Step(Step(Step(Step(Step(Step(a)))))), Step(Step(Step(Step(Step(Step(b)))))));
    StepLinear(Step(Step(Step(Step(Step(Step(Step(a))))))), Step(Step(Step(Step(Step(Step(Step(b))))))));
  }

  lemma Row0Checked(lo: bv8)
    requires lo < 16
    ensures Row0(lo) == Step8(lo as bv32)
  {
    hide Row0, Step8, Xor;
    HalfNibbles(lo);
    LowEntries();
    HighEntries();
    Row0Splits(lo);
    Step8Linear((lo & 12) as bv32, (lo & 3) as bv32);
  }

  lemma HalfNibbles(lo: bv8)
    requires lo < 16
    ensures lo as bv32 == Xor((lo & 12) as bv32, (lo & 3) as bv32)
    ensures lo & 3 in {0, 1, 2, 3} && lo & 12 in {0, 4, 8, 12}
  {
  }

  lemma Nibbles(i: byte)
    ensures i & 15 < 16 && i >> 4 < 16 && i as bv32 == Xor(((i >> 4) as bv32) << 4, (i & 15) as bv32)
  {
  }

  lemma FirstEntries(hi: bv8)
    requires hi < 16
    ensures Row(hi, 0) == Step8((hi as bv32) << 4)
  {
    hide Step8, Row0, Row1, Row2, Row3, Row4, Row5, Row6, Row7, Row8, Row9, RowA, RowB, RowC, RowD, RowE, RowF;
    FirstEntries0();
    FirstEntries4();
    FirstEntries8();
    FirstEntriesC();
    SixteenValues(hi);
  }

  lemma SixteenValues(hi: bv8)
    requires hi < 16
    ensures hi in {0, 1, 2, 3, 4, 5, 6, 7, 8, 9, 10, 11, 12, 13, 14, 15}
  {
  }

  lemma RowSplits(hi: bv8, lo: bv8)
    requires hi < 16 && lo < 16 && hi != 0
    ensures Row(hi, lo) == Xor(Row(hi, 0), Row0(lo))
  {
    hide Xor, Row0, Row1, Row2, Row3, Row4, Row5, Row6, Row7, Row8, Row9, RowA, RowB, RowC, RowD, RowE, RowF;
    match hi
    case 1 => Row1Splits(lo);
    case 2 => Row2Splits(lo);
    case 3 => Row3Splits(lo);
    case 4 => Row4Splits(lo);
    case 5 => Row5Splits(lo);
    case 6 => Row6Splits(lo);
    case 7 => Row7Splits(lo);
    case 8 => Row8Splits(lo);
    case 9 => Row9Splits(lo);
    case 10 => RowASplits(lo);
    case 11 => RowBSplits(lo);
    case 12 => RowCSplits(lo);
    case 13 => RowDSplits(lo);
    case 14 => RowESplits(lo);
    case _ => RowFSplits(lo);
  }

  lemma TableIsEightSteps(i: byte)
    ensures Crc32q(i) == Step8(i as bv32)
  {
    hide Step8, Xor, Row, Row0;
    var hi, lo := i >> 4, i & 15;
    Nibbles(i);
    Row0Checked(lo);
    if hi == 0 {
      FirstRow(i);
    } else {
      RowSplits(hi, lo);
      FirstEntries(hi);
      Step8Linear((hi as bv32) << 4, lo as bv32);
    }
  }

  lemma FirstRow(i: byte)
    ensures i >> 4 == 0 ==> i & 15 == i && Row(i >> 4, i & 15) == Row0(i)
  {
    hide Row0;
  }

  lemma Step8Shifts(y: bv32)
    requires y & 0xff == 0
    ensures Step8(y) == y >> 8
  {
  }

  lemma SplitLowByte(x: bv32)
    ensures Xor(x & 0xff, x & 0xffff_ff00) == x
    ensures (x & 0xffff_ff00) & 0xff == 0 && (x & 0xffff_ff00) >> 8 == x >> 8
  {
  }

  lemma IndexByte(crc: bv32, v: byte)
    ensures ((crc & 0xff) as byte ^ v) as bv32 == Xor(crc, v as bv32) & 0xff
    ensures Xor(crc, v as bv32) >> 8 == crc >> 8
  {
  }

  lemma UpdateIsXor(crc: bv32, v: byte)
    ensures TableUpdate(crc, v) == Xor(Crc32q((crc & 0xff) as byte ^ v), crc >> 8)
  {
    hide Crc32q;
  }

  // One byte through the table is the byte added to the register and eight shifts.
  lemma TableStep(crc: bv32, v: byte)
    ensures TableUpdate(crc, v) == Step8(Xor(crc, v as bv32))
  {
    hide Crc32q, Step8, Xor, TableUpdate;
    UpdateIsXor(crc, v);
    var x := Xor(crc, v as bv32);
    TableIsEightSteps((crc & 0xff) as byte ^ v);
    IndexByte(crc, v);
    SplitLowByte(x);
    Step8Linear(x & 0xff, x & 0xffff_ff00);
    Step8Shifts(x & 0xffff_ff00);
  }

  // ---- the loop computes the bit-serial checksum

  lemma {:induction false} FeedBits(s: bv32, v: bv32, n: nat)
    ensures Xor(Feed(s, Bits(v, n)), ShrN(v, n)) == StepN(Xor(s, v), n)
    decreases n
  {
    hide Xor, Shr, Low, Step, Bit;
    if n > 0 {
      var b := Bit(Low(v));
      var w := Xor(v, b);
      // the low bit goes in now; what is left of v is even, so the shift moves it down unchanged
      XorLaws(v, b, b);
      XorCancel(v, b);
      XorLaws(s, b, w);
      XorLaws(b, w, 0);
      ShrClearLow(v);
      StepLinear(Xor(s, b), w);
      EvenStep(w);
      assert Bits(v, n)[1..] == Bits(Shr(v), n - 1);
      FeedBits(Step(Xor(s, b)), Shr(v), n - 1);
    }
  }

  lemma EvenStep(w: bv32)
    requires !Low(w)
    ensures Step(w) == Shr(w)
  {
  }

  lemma FeedByte(s: bv32, v: byte)
    ensures Feed(s, Bits(v as bv32, 8)) == Step8(Xor(s, v as bv32))
  {
    hide Xor, Step;
    FeedBits(s, v as bv32, 8);
    ShrEight(v as bv32, 0);
    ByteShiftedOut(v);
    XorLaws(Feed(s, Bits(v as bv32, 8)), 0, 0);
    EightSteps(Xor(s, v as bv32));
  }

  lemma ByteShiftedOut(v: byte)
    ensures (v as bv32) >> 8 == 0
  {
  }

  lemma {:induction false} EightSteps(x: bv32)
    ensures StepN(x, 8) == Step8(x)
  {
    hide Step;
    assert StepN(x, 8) == StepN(Step(Step(Step(Step(x)))), 4);
  }

  // The message bits in the order they are fed.
  function DataBits(data: seq<byte>): (bits: seq<bool>)
    ensures |bits| == 8 * |data|
  {
    if data == [] then [] else Bits(data[0] as bv32, 8) + DataBits(data[1..])
  }

  // The checksum by definition.
  function Checksum(seed: bv32, data: seq<byte>): bv32 {
    Feed(seed, DataBits(data))
  }

  lemma {:induction false} DataBitsConcat(a: seq<byte>, b: seq<byte>)
    ensures DataBits(a + b) == DataBits(a) + DataBits(b)
  {
    if a == [] {
      assert a + b == b;
    } else {
      assert (a + b)[1..] == a[1..] + b;
      DataBitsConcat(a[1..], b);
    }
  }

  lemma ChecksumConcat(seed: bv32, a: seq<byte>, b: seq<byte>)
    ensures Checksum(seed, a + b) == Checksum(Checksum(seed, a), b)
  {
    hide DataBits, Feed;
    DataBitsConcat(a, b);
    FeedConcat(seed, DataBits(a), DataBits(b));
  }

  // The program's loop over the table.
  method BtrfsCrc32c(seed: bv32, data: seq<byte>) returns (crc: bv32)
    ensures crc == Checksum(seed, data)
  {
    hide TableUpdate, Checksum;
    crc := seed;
    assert crc == Checksum(seed, data[..0]) by { NoBytes(seed); }
    for i := 0 to |data|
      invariant crc == Checksum(seed, data[..i])
    {
      NextByte(seed, data, i, crc);
      crc := TableUpdate(crc, data[i]);
    }
    assert data[..|data|] == data;
  }

  lemma NoBytes(seed: bv32)
    ensures Checksum(seed, []) == seed
  {
  }

  lemma NextByte(seed: bv32, data: seq<byte>, i: nat, crc: bv32)
    requires i < |data| && crc == Checksum(seed, data[..i])
    ensures TableUpdate(crc, data[i]) == Checksum(seed, data[..i + 1])
  {
    hide TableUpdate, Step8, Feed, Xor, Bits;
    TableStep(crc, data[i]);
    FeedByte(crc, data[i]);
    assert data[..i + 1] == data[..i] + [data[i]];
    ChecksumConcat(seed, data[..i], [data[i]]);
    OneByteBits(data[i]);
  }

  lemma {:induction false} OneByteBits(v: byte)
    ensures DataBits([v]) == Bits(v as bv32, 8)
  {
    hide Bits;
    assert [v][1..] == [] && DataBits([]) == [];
  }
}
