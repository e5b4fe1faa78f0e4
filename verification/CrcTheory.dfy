/**
  What the command checksum means and what it detects.

  `Burst`: two messages of one length whose differing bits all lie less than 32 bits apart never share a checksum,
  and 32 is the exact limit. `Gf2`: the checksum is the remainder of dividing the message polynomial, times x^32,
  by the Castagnoli polynomial over the two-element field.
  */
module Burst {
  import opened Register
  import opened Crc32c

  lemma {:induction false} ZeroBits(n: nat)
    ensures forall i | 0 <= i < n :: !Bits(0, n)[i]
    decreases n
  {
    if n > 0 {
      assert !Low(0) && Shr(0) == 0;
      ZeroBits(n - 1);
    }
  }

  lemma OneBits()
    ensures Reg(1)[0] && forall i | 1 <= i < 32 :: !Reg(1)[i]
  {
    assert Low(1) && Shr(1) == 0;
    ZeroBits(31);
  }

  // Bits 28 to 31 of a word.
  lemma {:induction false} TopNibble(x: bv32)
    ensures Bits(x, 32)[31] == Low(ShrN(x, 31))
  {
    BitAt(x, 32, 31);
  }

  lemma {:induction false} BitAt(x: bv32, n: nat, i: nat)
    requires i < n
    ensures Bits(x, n)[i] == Low(ShrN(x, i))
    decreases n
  {
    hide Low, Shr;
    if i > 0 {
      BitAt(Shr(x), n - 1, i - 1);
    }
  }

  lemma PolynomialTopBit()
    ensures Reg(POLYNOMIAL)[31]
  {
    TopNibble(POLYNOMIAL);
    ShrEight(POLYNOMIAL, 23);
    ShrEight(0x82F63B, 15);
    ShrEight(0x82F6, 7);
    assert ShrN(0x82, 7) == ShrN(0x41, 6) == ShrN(0x20, 5) == ShrN(0x10, 4) == ShrN(0x8, 3) == ShrN(4, 2) ==
        ShrN(2, 1) == 1;
  }

  ghost predicate ZeroFrom(s: bv32, k: nat) {
    forall i | k <= i < 32 :: !Reg(s)[i]
  }

  lemma AddLowBit(s: bv32, b: bool)
    ensures forall i | 1 <= i < 32 :: Reg(Xor(s, Bit(b)))[i] == Reg(s)[i]
  {
    hide Xor, Reg;
    if b {
      OneBits();
      RegXor(s, 1);
    } else {
      XorLaws(s, 0, 0);
    }
  }

  // Running the register backwards from zero over k bits reaches only states whose bits k and up are clear.
  lemma {:induction false} ZeroBack(s: bv32, bits: seq<bool>)
    requires Feed(s, bits) == 0 && |bits| <= 32
    ensures ZeroFrom(s, |bits|)
    decreases |bits|
  {
    hide Xor, Step, Bit, Reg;
    if bits == [] {
      ZeroBits(32);
      assert Reg(0) == Bits(0, 32) by { RegIsBits(0); }
    } else {
      var t := Xor(s, Bit(bits[0]));
      ZeroBack(Step(t), bits[1..]);
      RegStep(t);
      PolynomialTopBit();
      assert !Reg(Step(t))[31];
      assert forall i | |bits| <= i < 32 :: Reg(Step(t))[i - 1] == Reg(t)[i];
      AddLowBit(s, bits[0]);
    }
  }

  lemma {:induction false} RegIsBits(s: bv32)
    ensures Reg(s) == Bits(s, 32)
  {
  }

  lemma StepOfOne()
    ensures Reg(Step(1))[31]
  {
    hide Step, Reg;
    RegStep(1);
    OneBits();
    PolynomialTopBit();
    assert Zip(Reg(1)[1..] + [false], Reg(POLYNOMIAL))[31];
  }

  // A window of at most 32 bits that starts with a set bit never returns the register to zero.
  lemma {:induction false} WindowSurvives(bits: seq<bool>)
    requires 0 < |bits| <= 32 && bits[0]
    ensures Feed(0, bits) != 0
  {
    hide Xor, Step, Reg;
    StepOfOne();
    XorLaws(1, 0, 0);
    XorLaws(0, 1, 0);
    assert Feed(0, bits) == Feed(Step(1), bits[1..]);
    if Feed(0, bits) == 0 {
      ZeroBack(Step(1), bits[1..]);
      assert false;
    }
  }

  lemma {:induction false} FeedZeros(bits: seq<bool>)
    requires forall i | 0 <= i < |bits| :: !bits[i]
    ensures Feed(0, bits) == 0
    decreases |bits|
  {
    if bits != [] {
      FeedZeros(bits[1..]);
    }
  }

  // All set bits lie less than 32 positions apart.
  ghost predicate IsBurst(bits: seq<bool>) {
    forall i, j | 0 <= i <= j < |bits| && bits[i] && bits[j] :: j - i < 32
  }

  lemma {:induction false} BurstSurvives(bits: seq<bool>)
    requires IsBurst(bits) && true in bits
    ensures Feed(0, bits) != 0
    decreases |bits|
  {
    hide Xor, Step, Bit;
    if bits[0] {
      var m := if |bits| < 32 then |bits| else 32;
      var u, z := bits[..m], bits[m..];
      assert bits == u + z;
      FeedConcat(0, u, z);
      WindowSurvives(u);
      assert forall i | 0 <= i < |z| :: z[i] == bits[m + i];
      FeedZeros(z);
      if Feed(0, bits) == 0 {
        FeedInjective(Feed(0, u), 0, z);
        assert false;
      }
    } else {
      assert bits == [false] + bits[1..];
      FirstBitClear(bits);
      BurstSurvives(bits[1..]);
    }
  }

  lemma {:induction false} FirstBitClear(bits: seq<bool>)
    requires bits != [] && !bits[0]
    ensures Feed(0, bits) == Feed(0, bits[1..])
  {
    assert Step(Xor(0, Bit(false))) == 0;
  }

  // ---- messages

  lemma ByteBitsInjective(v: byte, w: byte)
    requires Bits(v as bv32, 8) == Bits(w as bv32, 8)
    ensures v == w
  {
    hide Xor, Step, Step8, Bits;
    FeedByte(0, v);
    FeedByte(0, w);
    XorLaws(0, v as bv32, 0);
    XorLaws(0, w as bv32, 0);
    XorLaws(v as bv32, 0, 0);
    XorLaws(w as bv32, 0, 0);
    EightSteps(v as bv32);
    EightSteps(w as bv32);
    StepNInjective(v as bv32, w as bv32, 8);
    WidenInjective(v, w);
  }

  lemma WidenInjective(v: byte, w: byte)
    ensures v as bv32 == w as bv32 ==> v == w
  {
  }

  lemma {:induction false} StepNInjective(s: bv32, t: bv32, n: nat)
    requires StepN(s, n) == StepN(t, n)
    ensures s == t
    decreases n
  {
    hide Step, UnStep;
    if n > 0 {
      StepNInjective(Step(s), Step(t), n - 1);
      UnStepStep(s);
      UnStepStep(t);
    }
  }

  lemma {:induction false} DataBitsInjective(a: seq<byte>, b: seq<byte>)
    requires DataBits(a) == DataBits(b)
    ensures a == b
  {
    hide Bits;
    assert |DataBits(a)| == 8 * |a| && |DataBits(b)| == 8 * |b|;
    if a != [] {
      assert DataBits(a)[..8] == Bits(a[0] as bv32, 8) && DataBits(b)[..8] == Bits(b[0] as bv32, 8);
      assert DataBits(a)[8..] == DataBits(a[1..]) && DataBits(b)[8..] == DataBits(b[1..]);
      ByteBitsInjective(a[0], b[0]);
      DataBitsInjective(a[1..], b[1..]);
      assert a == [a[0]] + a[1..] && b == [b[0]] + b[1..];
    }
  }

  // The messages have one length and every two differing bits are less than 32 positions apart.
  ghost predicate DifferByBurst(a: seq<byte>, b: seq<byte>) {
    |a| == |b| && a != b && IsBurst(Zip(DataBits(a), DataBits(b)))
  }

  // Every corruption confined to 32 consecutive bits changes the checksum, from any seed.
  lemma BurstsAreDetected(seed: bv32, a: seq<byte>, b: seq<byte>)
    requires DifferByBurst(a, b)
    ensures Checksum(seed, a) != Checksum(seed, b)
  {
    hide Xor, Feed;
    var x, y := DataBits(a), DataBits(b);
    var d := Zip(x, y);
    if true !in d {
      assert forall i | 0 <= i < |x| :: d[i] in d && x[i] == y[i];
      assert x == y;
      DataBitsInjective(a, b);
      assert false;
    }
    BurstSurvives(d);
    FeedLinear(seed, seed, x, y);
    XorLaws(seed, seed, 0);
    XorLaws(Checksum(seed, a), Checksum(seed, b), 0);
  }

  // 32 is the limit: adding the 33 bits of the generator itself goes unnoticed.
  lemma {:induction false} GeneratorIsNotDetected(seed: bv32, x: seq<bool>, y: seq<bool>, before: nat, after: nat)
    requires |x| == |y| == before + 33 + after
    requires Zip(x, y) == Zeros(before) + ([true] + Reg(POLYNOMIAL)) + Zeros(after)
    ensures Feed(seed, x) == Feed(seed, y)
  {
    hide Xor, Feed, Step;
    var g := [true] + Reg(POLYNOMIAL);
    FeedConcat(0, Zeros(before) + g, Zeros(after));
    FeedConcat(0, Zeros(before), g);
    FeedZeros(Zeros(before));
    FeedZeros(Zeros(after));
    GeneratorCancels();
    FeedLinear(seed, seed, x, y);
    XorLaws(seed, seed, 0);
    XorCancel(Feed(seed, x), Feed(seed, y));
  }

  function Zeros(n: nat): seq<bool> { seq(n, _ => false) }

  lemma GeneratorCancels()
    ensures Feed(0, [true] + Reg(POLYNOMIAL)) == 0
  {
    hide Xor, Step, Bits;
    var p := POLYNOMIAL;
    assert ([true] + Reg(p))[1..] == Bits(p, 32);
    XorLaws(0, 1, 0);
    XorLaws(1, 0, 0);
    assert Step(1) == p by { StepOne(); }
    assert Feed(0, [true] + Reg(p)) == Feed(p, Bits(p, 32));
    FeedBits(p, p, 32);
    ShrAll(p);
    XorLaws(p, p, 0);
    StepNZero(32);
    XorLaws(Feed(p, Bits(p, 32)), 0, 0);
  }

  lemma StepOne()
    ensures Step(1) == POLYNOMIAL && Step(0) == 0
  {
  }

  lemma {:induction false} StepNZero(n: nat)
    ensures StepN(0, n) == 0
    decreases n
  {
    hide Step;
    if n > 0 {
      StepOne();
      StepNZero(n - 1);
    }
  }
}

/** Polynomials over the two-element field, as the sets of their exponents. */
module Gf2 {
  import opened Burst
  import opened Crc32c
  import opened Register

  type Poly = iset<nat>

  ghost function Add(p: Poly, q: Poly): Poly {
    iset e: nat | (e in p) != (e in q)
  }

  // p times x^k
  ghost function Shl(p: Poly, k: nat): Poly {
    iset e: nat | HasShifted(p, k, e)
  }

  ghost predicate HasShifted(p: Poly, k: nat, e: nat) {
    e >= k && e - k in p
  }

  ghost predicate DegreeBelow(p: Poly, k: nat) {
    forall e <- p :: e < k
  }

  // The polynomial with these coefficients, highest degree first.
  ghost function PolyOf(bits: seq<bool>): Poly {
    iset e: nat | Coefficient(bits, e)
  }

  ghost predicate Coefficient(bits: seq<bool>, e: nat) {
    e < |bits| && bits[|bits| - 1 - e]
  }

  // The register is reflected: its bit i is the coefficient of x^(31-i).
  ghost function RegPoly(s: bv32): Poly {
    PolyOf(Reg(s))
  }

  // The generator: x^32 and the terms that the reflected constant stands for.
  ghost function Generator(): Poly {
    Add(iset{32}, RegPoly(POLYNOMIAL))
  }

  // q times the generator, for a quotient given by its coefficients.
  ghost function Times(q: seq<bool>): Poly {
    if q == [] then iset{}
    else Add(if q[0] then Shl(Generator(), |q| - 1) else iset{}, Times(q[1..]))
  }

  // ---- the generator is the Castagnoli polynomial of section 12.1 of RFC 3720

  lemma GeneratorTerms()
    ensures Generator() == iset{32, 28, 27, 26, 25, 23, 22, 20, 19, 18, 14, 13, 11, 10, 9, 8, 6, 0}
  {
    hide Bits;
    Nibbles();
    assert Reg(POLYNOMIAL) == Bits(0x82F63B78, 32) by { RegIsBits(POLYNOMIAL); }
  }

  lemma Nibbles()
    ensures Bits(0x82F63B78, 32) ==
            [false, false, false, true, true, true, true, false, true, true, false, true, true, true, false, false,
             false, true, true, false, true, true, true, true, false, true, false, false, false, false, false, true]
  {
    hide Bits;
    Nibble(0x82F63B78, 28);
    Nibble(0x82F63B7, 24);
    Nibble(0x82F63B, 20);
    Nibble(0x82F63, 16);
    Nibble(0x82F6, 12);
    Nibble(0x82F, 8);
    Nibble(0x82, 4);
    Nibble(0x8, 0);
    assert Bits(0, 0) == [];
  }

  lemma Nibble(x: bv32, n: nat)
    ensures Bits(x, n + 4) == [x & 1 != 0, x & 2 != 0, x & 4 != 0, x & 8 != 0] + Bits(x >> 4, n)
  {
    NibbleBits(x);
    hide Shr, Low;
    assert Bits(x, n + 4) == [Low(x)] + Bits(Shr(x), n + 3);
    assert Bits(Shr(x), n + 3) == [Low(Shr(x))] + Bits(Shr(Shr(x)), n + 2);
    assert Bits(Shr(Shr(x)), n + 2) == [Low(Shr(Shr(x)))] + Bits(Shr(Shr(Shr(x))), n + 1);
    assert Bits(Shr(Shr(Shr(x))), n + 1) == [Low(Shr(Shr(Shr(x))))] + Bits(Shr(Shr(Shr(Shr(x)))), n);
  }

  lemma NibbleBits(x: bv32)
    ensures Shr(Shr(Shr(Shr(x)))) == x >> 4
    ensures Low(x) == (x & 1 != 0) && Low(Shr(x)) == (x & 2 != 0)
    ensures Low(Shr(Shr(x))) == (x & 4 != 0) && Low(Shr(Shr(Shr(x)))) == (x & 8 != 0)
  {
  }

  // ---- the register is the remainder

  // x times the register, reduced once, is one shift.
  lemma StepReduces(s: bv32)
    ensures Shl(RegPoly(s), 1) == Add(RegPoly(Step(s)), if Reg(s)[0] then Generator() else iset{})
  {
    hide Step, Reg;
    RegStep(s);
    var r := Reg(s);
    forall e: nat
      ensures e in Shl(RegPoly(s), 1) <==> e in Add(RegPoly(Step(s)), if r[0] then Generator() else iset{})
    {
      assert e in Shl(RegPoly(s), 1) <==> HasShifted(RegPoly(s), 1, e);
    }
  }

  lemma ShlAdd(p: Poly, q: Poly, k: nat)
    ensures Shl(Add(p, q), k) == Add(Shl(p, k), Shl(q, k))
  {
  }

  lemma ShlShl(p: Poly, j: nat, k: nat)
    ensures Shl(Shl(p, j), k) == Shl(p, j + k)
  {
  }

  lemma PolyCons(bits: seq<bool>)
    requires bits != []
    ensures PolyOf(bits) == Add(if bits[0] then iset{|bits| - 1} else iset{}, PolyOf(bits[1..]))
  {
    forall e: nat ensures Coefficient(bits, e) <==> (e == |bits| - 1 && bits[0]) || Coefficient(bits[1..], e) {
    }
  }

  lemma RegPolyAddBit(s: bv32, b: bool)
    ensures RegPoly(Xor(s, Bit(b))) == Add(RegPoly(s), if b then iset{31} else iset{})
  {
    hide Xor, Bit, Reg;
    RegXor(s, Bit(b));
    assert Reg(Bit(b)) == if b then [true] + Zeros(31) else Zeros(32) by { RegOfBit(b); }
  }

  lemma RegOfBit(b: bool)
    ensures Reg(Bit(b)) == if b then [true] + Zeros(31) else Zeros(32)
  {
    OneBits();
    ZeroBits(32);
  }

  // Feeding a message leaves the remainder: state * x^n + message * x^32 = quotient * generator + new state.
  lemma {:induction false} FeedDivides(s: bv32, bits: seq<bool>) returns (q: seq<bool>)
    ensures |q| == |bits|
    ensures Add(Shl(RegPoly(s), |bits|), Shl(PolyOf(bits), 32)) == Add(Times(q), RegPoly(Feed(s, bits)))
    decreases |bits|
  {
    hide Step, Xor, Reg;
    if bits == [] {
      q := [];
    } else {
      var n, b, rest := |bits|, bits[0], bits[1..];
      var t := Xor(s, Bit(b));
      var q' := FeedDivides(Step(t), rest);
      var c := Reg(t)[0];
      q := [c] + q';
      assert q[1..] == q';
      var g := if c then Generator() else iset{};
      var h := if b then iset{31} else iset{};
      DivisionStep(RegPoly(s), RegPoly(t), RegPoly(Step(t)), g, h, PolyOf(rest), n,
                   Times(q'), RegPoly(Feed(s, bits))) by {
        RegPolyAddBit(s, b);
        StepReduces(t);
      }
      PolyCons(bits);
      assert Shl(if b then iset{n - 1} else iset{}, 32) == Shl(h, n);
      ShlAdd(if b then iset{n - 1} else iset{}, PolyOf(rest), 32);
      assert Times(q) == Add(Shl(g, n - 1), Times(q'));
    }
  }

  lemma DivisionStep(s: Poly, t: Poly, u: Poly, g: Poly, h: Poly, rest: Poly, n: nat, q: Poly, r: Poly)
    requires n >= 1
    requires t == Add(s, h) && Shl(t, 1) == Add(u, g)
    requires Add(Shl(u, n - 1), Shl(rest, 32)) == Add(q, r)
    ensures Add(Shl(s, n), Add(Shl(h, n), Shl(rest, 32))) == Add(Add(Shl(g, n - 1), q), r)
  {
    ShlAdd(s, h, n);
    ShlShl(t, 1, n - 1);
    ShlAdd(u, g, n - 1);
    hide Shl;
    assert Add(Shl(s, n), Shl(h, n)) == Add(Shl(u, n - 1), Shl(g, n - 1));
    forall e: nat
      ensures e in Add(Shl(s, n), Add(Shl(h, n), Shl(rest, 32))) <==> e in Add(Add(Shl(g, n - 1), q), r)
    {
      assert e in Add(Shl(s, n), Shl(h, n)) <==> e in Add(Shl(u, n - 1), Shl(g, n - 1));
      assert e in Add(Shl(u, n - 1), Shl(rest, 32)) <==> e in Add(q, r);
    }
  }

  // ---- and that remainder is unique

  lemma {:induction false} TimesDegree(q: seq<bool>)
    ensures DegreeBelow(Times(q), 32 + |q|)
  {
    if q != [] {
      TimesDegree(q[1..]);
    }
  }

  lemma {:induction false} TimesLinear(a: seq<bool>, b: seq<bool>)
    requires |a| == |b|
    ensures Add(Times(a), Times(b)) == Times(Zip(a, b))
  {
    hide Shl, Generator;
    if a != [] {
      TimesLinear(a[1..], b[1..]);
      assert Zip(a, b)[1..] == Zip(a[1..], b[1..]);
    }
  }

  lemma {:induction false} TimesPadded(k: nat, q: seq<bool>)
    ensures Times(Zeros(k) + q) == Times(q)
  {
    if k == 0 {
      assert Zeros(0) + q == q;
    } else {
      assert (Zeros(k) + q)[1..] == Zeros(k - 1) + q;
      TimesPadded(k - 1, q);
      assert Times(Zeros(k) + q) == Add(iset{}, Times(Zeros(k - 1) + q));
    }
  }

  // A multiple of the generator with degree below 32 is zero.
  lemma {:induction false} SmallMultipleIsZero(q: seq<bool>)
    requires DegreeBelow(Times(q), 32)
    ensures Times(q) == iset{}
  {
    if q != [] {
      if q[0] {
        TimesDegree(q[1..]);
        assert 32 in Generator();
        assert HasShifted(Generator(), |q| - 1, 32 + |q| - 1);
        assert 32 + |q| - 1 in Times(q);
        assert false;
      }
      assert Times(q) == Times(q[1..]);
      SmallMultipleIsZero(q[1..]);
    }
  }

  lemma {:induction false} RemainderUnique(a: seq<bool>, r: Poly, b: seq<bool>, s: Poly)
    requires DegreeBelow(r, 32) && DegreeBelow(s, 32)
    requires Add(Times(a), r) == Add(Times(b), s)
    ensures r == s
  {
    var m := if |a| < |b| then |b| else |a|;
    var a', b' := Zeros(m - |a|) + a, Zeros(m - |b|) + b;
    TimesPadded(m - |a|, a);
    TimesPadded(m - |b|, b);
    TimesLinear(a', b');
    var d := Times(Zip(a', b'));
    hide Times;
    forall e: nat ensures e in d <==> e in Add(r, s) {
      assert e in Add(Times(a), r) <==> e in Add(Times(b), s);
    }
    assert d == Add(r, s);
    SmallMultipleIsZero(Zip(a', b'));
    forall e: nat ensures e in r <==> e in s {
      assert e !in Add(r, s);
    }
  }

  lemma {:induction false} NoBitsNoWord(x: bv32, n: nat)
    requires ShrN(x, n) == 0 && forall i | 0 <= i < n :: !Bits(x, n)[i]
    ensures x == 0
    decreases n
  {
    hide Shr, Low;
    if n > 0 {
      assert Bits(x, n)[1..] == Bits(Shr(x), n - 1);
      assert !Bits(x, n)[0];
      NoBitsNoWord(Shr(x), n - 1);
      NothingLeft(x);
    }
  }

  lemma NothingLeft(x: bv32)
    ensures Shr(x) == 0 && !Low(x) ==> x == 0
  {
  }

  lemma RegPolyInjective(s: bv32, t: bv32)
    requires RegPoly(s) == RegPoly(t)
    ensures s == t
  {
    hide Xor, Reg, Bits;
    forall i: nat | i < 32 ensures Reg(s)[i] == Reg(t)[i] {
      assert 31 - i in RegPoly(s) <==> Coefficient(Reg(s), 31 - i);
      assert 31 - i in RegPoly(t) <==> Coefficient(Reg(t), 31 - i);
    }
    RegXor(s, t);
    RegIsBits(Xor(s, t));
    ShrAll(Xor(s, t));
    NoBitsNoWord(Xor(s, t), 32);
    XorCancel(s, t);
  }

  ghost predicate IsRemainder(r: Poly, bits: seq<bool>) {
    && DegreeBelow(r, 32)
    && exists q: seq<bool> :: Shl(PolyOf(bits), 32) == Add(Times(q), r)
  }

  // A word is the checksum of a message exactly when it is the message's remainder.
  lemma {:induction false} ChecksumIsRemainder(data: seq<byte>, crc: bv32)
    ensures Checksum(0, data) == crc <==> IsRemainder(RegPoly(crc), DataBits(data))
  {
    hide Feed, Reg, Times;
    var bits := DataBits(data);
    var q := FeedDivides(0, bits);
    assert RegPoly(0) == iset{} by { ZeroBits(32); RegIsBits(0); hide Bits; }
    assert Shl(PolyOf(bits), 32) == Add(Shl(RegPoly(0), |bits|), Shl(PolyOf(bits), 32));
    assert IsRemainder(RegPoly(Checksum(0, data)), bits);
    if IsRemainder(RegPoly(crc), bits) {
      var q' :| Shl(PolyOf(bits), 32) == Add(Times(q'), RegPoly(crc));
      RemainderUnique(q, RegPoly(Checksum(0, data)), q', RegPoly(crc));
      RegPolyInjective(Checksum(0, data), crc);
    }
  }
}
