/**
 * The checksum of an API key: CRC-32 (section 8 of RFC 1952), one bit at a time on a
 * 32-bit register.
 */
module Crc32 {
  import opened LinearRegisters

  const INIT: bv32 := 0xFFFF_FFFF

  /** One shift of the register; the reflected polynomial comes in when a one falls out. */
  function BitStep(x: bv32): (r: bv32) {
    if x & 1 == 1 then (x >> 1) ^ 0xEDB8_8320 else x >> 1
  }

  function ByteStep(x: bv32): (r: bv32) {
    Iterate(BitStep, x, 8)
  }

  /** A number as a word, bit by bit. */
  function Bits(n: nat): (r: bv32) {
    if n == 0 then 0 else (Bits(n / 2) << 1) ^ Low(n)
  }

  function Low(n: nat): (r: bv32) {
    if n % 2 == 1 then 1 else 0
  }

  function Code(c: char): (r: bv32) { Bits(c as int) }
  function Xor(a: bv32, b: bv32): (r: bv32) { a ^ b }
  function Up(w: bv32): (r: bv32) { w << 8 }

  predicate Fits(w: bv32, n: nat) {
    match n
    case 0 => w == 0
    case 1 => w < 0x100
    case 2 => w < 0x1_0000
    case 3 => w < 0x100_0000
    case _ => true
  }

  const CRC: Machine<bv32> := Machine(0, Xor, Up, Fits, ByteStep, Code)

  function Crc(s: string): (r: nat) {
    (Register(CRC, INIT, s) ^ INIT) as int
  }

  /// ## Computing it

  lemma LowBit(x: bv32)
    ensures x & 1 == 0 || x & 1 == 1
  {
  }

  /** The negation of the low bit, as a mask, keeps the polynomial or nothing, without a branch. */
  lemma NegatedMask(b: bv32)
    requires b == 0 || b == 1
    ensures 0xEDB8_8320 & (0 - b) == if b == 1 then 0xEDB8_8320 else 0
  {
  }

  method ShiftByte(start: bv32) returns (crc: bv32)
    ensures crc == ByteStep(start)
  {
    crc := start;
    for j := 0 to 8
      invariant crc == Iterate(BitStep, start, j)
    {
      LowBit(crc);
      NegatedMask(crc & 1);
      assert crc & 1 == 0 ==> (crc >> 1) ^ 0 == crc >> 1;
      crc := (crc >> 1) ^ (0xEDB8_8320 & (0 - (crc & 1)));
    }
  }

  lemma RegisterNext(reg: bv32, s: string, i: nat)
    requires i < |s|
    ensures Register(CRC, reg, s[..i + 1]) == Feed(CRC, Register(CRC, reg, s[..i]), s[i])
  {
    assert s[..i + 1][..i] == s[..i];
  }

  lemma FeedIsByteStep(reg: bv32, c: char)
    ensures Feed(CRC, reg, c) == ByteStep(reg ^ Code(c))
  {
  }

  method ComputeCrc(input: string) returns (value: nat)
    ensures value == Crc(input)
  {
    var crc := INIT;
    for i := 0 to |input|
      invariant crc == Register(CRC, INIT, input[..i])
    {
      RegisterNext(INIT, input, i);
      FeedIsByteStep(crc, input[i]);
      crc := ShiftByte(crc ^ Code(input[i]));
    }
    assert input[..|input|] == input;
    value := (crc ^ INIT) as int;
  }

  /// ## The CRC register obeys the laws

  lemma BitStepOfXor(x: bv32, y: bv32)
    ensures BitStep(x ^ y) == BitStep(x) ^ BitStep(y)
  {
    LowBit(x);
    LowBit(y);
    assert 0 ^ (0 as bv32) == 0 && 1 ^ (0 as bv32) == 1 && 0 ^ (1 as bv32) == 1 && 1 ^ (1 as bv32) == 0;
    if x & 1 == 1 {
      if y & 1 == 1 {} else {}
    } else {
      if y & 1 == 1 {} else {}
    }
  }

  lemma ByteStepIsLinear()
    ensures IsLinear(CRC, ByteStep)
  {
    BitStepIsLinear();
    IterateIsLinear(CRC, BitStep, ByteStep, 8);
  }

  lemma BitStepIsLinear()
    ensures IsLinear(CRC, BitStep)
  {
    forall a: bv32, b: bv32 ensures Additive(CRC, BitStep, a, b) { BitStepAdditive(a, b); }
  }

  lemma BitStepAdditive(a: bv32, b: bv32)
    ensures Additive(CRC, BitStep, a, b)
  {
    var sum := BitStep(a) ^ BitStep(b);
    BitStepOfXor(a, b);
    XorApplied(a, b);
    XorApplied(BitStep(a), BitStep(b));
    AdditiveFrom(CRC, BitStep, a, b, a ^ b, sum);
  }

  lemma XorApplied(a: bv32, b: bv32)
    ensures CRC.xor(a, b) == a ^ b
  {
  }

  lemma ByteStepKeepsNonZero()
    ensures OnlyZeroToZero(CRC)
  {
    assert forall a :: BitStep(a) == 0 ==> a == 0;
    forall a: bv32 ensures CRC.step(a) == CRC.zero ==> a == CRC.zero {
      if CRC.step(a) == CRC.zero { IterateKeepsNonZero(BitStep, 0, a, 8); }
    }
  }

  lemma EightSteps(x: bv32)
    ensures ByteStep(x) == BitStep(BitStep(BitStep(BitStep(BitStep(BitStep(BitStep(BitStep(x))))))))
  {
    Unrolled(BitStep, x);
  }

  lemma Unrolled(f: bv32 -> bv32, x: bv32)
    ensures Iterate(f, x, 8) == f(f(f(f(f(f(f(f(x))))))))
  {
    assert Iterate(f, x, 2) == f(f(x));
    assert Iterate(f, x, 4) == f(f(f(f(x))));
    assert Iterate(f, x, 6) == f(f(f(f(f(f(x))))));
  }

  lemma EvenStep(x: bv32)
    requires x & 1 == 0
    ensures BitStep(x) == x >> 1
  {
  }

  lemma ShiftedDown(w: bv32)
    requires w < 0x100_0000
    ensures (w << 8) & 1 == 0 && (w << 8) >> 1 == w << 7
    ensures (w << 7) & 1 == 0 && (w << 7) >> 1 == w << 6
    ensures (w << 6) & 1 == 0 && (w << 6) >> 1 == w << 5
    ensures (w << 5) & 1 == 0 && (w << 5) >> 1 == w << 4
    ensures (w << 4) & 1 == 0 && (w << 4) >> 1 == w << 3
    ensures (w << 3) & 1 == 0 && (w << 3) >> 1 == w << 2
    ensures (w << 2) & 1 == 0 && (w << 2) >> 1 == w << 1
    ensures (w << 1) & 1 == 0 && (w << 1) >> 1 == w
  {
  }

  lemma ShiftBack8(w: bv32)
    requires w < 0x100_0000
    ensures BitStep(w << 8) == w << 7
  {
    ShiftedDown(w);
    EvenStep(w << 8);
  }

  lemma ShiftBack7(w: bv32)
    requires w < 0x100_0000
    ensures BitStep(w << 7) == w << 6
  {
    ShiftedDown(w);
    EvenStep(w << 7);
  }

  lemma ShiftBack6(w: bv32)
    requires w < 0x100_0000
    ensures BitStep(w << 6) == w << 5
  {
    ShiftedDown(w);
    EvenStep(w << 6);
  }

  lemma ShiftBack5(w: bv32)
    requires w < 0x100_0000
    ensures BitStep(w << 5) == w << 4
  {
    ShiftedDown(w);
    EvenStep(w << 5);
  }

  lemma ShiftBack4(w: bv32)
    requires w < 0x100_0000
    ensures BitStep(w << 4) == w << 3
  {
    ShiftedDown(w);
    EvenStep(w << 4);
  }

  lemma ShiftBack3(w: bv32)
    requires w < 0x100_0000
    ensures BitStep(w << 3) == w << 2
  {
    ShiftedDown(w);
    EvenStep(w << 3);
  }

  lemma ShiftBack2(w: bv32)
    requires w < 0x100_0000
    ensures BitStep(w << 2) == w << 1
  {
    ShiftedDown(w);
    EvenStep(w << 2);
  }

  lemma ShiftBack1(w: bv32)
    requires w < 0x100_0000
    ensures BitStep(w << 1) == w
  {
    ShiftedDown(w);
    EvenStep(w << 1);
  }

  /** A register whose low byte is clear only moves down, one bit a step. */
  lemma ByteStepMovesDown()
    ensures MovesDown(CRC)
  {
    forall w: bv32 | CRC.fits(w, 3) ensures CRC.step(CRC.up(w)) == w {
      EightSteps(w << 8);
      ShiftBack8(w);
      ShiftBack7(w);
      ShiftBack6(w);
      ShiftBack5(w);
      ShiftBack4(w);
      ShiftBack3(w);
      ShiftBack2(w);
      ShiftBack1(w);
    }
  }

  lemma Room(a: bv32, w: bv32)
    ensures a < 0x100_0000 && w < 0x100_0000 ==> a ^ w < 0x100_0000
    ensures a < 0x100 && w == 0 ==> a ^ (w << 8) < 0x100
    ensures a < 0x100 && w < 0x100 ==> a ^ (w << 8) < 0x1_0000
    ensures a < 0x100 && w < 0x1_0000 ==> a ^ (w << 8) < 0x100_0000
  {
  }

  lemma WordsHaveRoom()
    ensures HasRoom(CRC)
  {
    forall a: bv32, w: bv32, n: nat ensures RoomLaws(CRC, a, w, n) { Room(a, w); }
  }

  lemma SplitBits(a: bv32, b: bv32, v: bv32, w: bv32)
    requires a < 0x100 && b < 0x100 && v < 0x100_0000 && w < 0x100_0000
    requires a ^ (v << 8) == b ^ (w << 8)
    ensures a == b && v == w
  {
  }

  lemma Split(a: bv32, b: bv32, v: bv32, w: bv32)
    requires Fits(a, 1) && Fits(b, 1) && Fits(v, 3) && Fits(w, 3) && Xor(a, Up(v)) == Xor(b, Up(w))
    ensures a == b && v == w
  {
    SplitBits(a, b, v, w);
  }

  lemma JoinApplied(a: bv32, v: bv32)
    ensures CRC.xor(a, CRC.up(v)) == Xor(a, Up(v))
  {
  }

  lemma CrcWordSplits(a: bv32, b: bv32, v: bv32, w: bv32)
    requires CRC.fits(a, 1) && CRC.fits(b, 1) && CRC.fits(v, 3) && CRC.fits(w, 3)
    requires CRC.xor(a, CRC.up(v)) == CRC.xor(b, CRC.up(w))
    ensures a == b && v == w
  {
    JoinApplied(a, v);
    JoinApplied(b, w);
    Split(a, b, v, w);
  }

  lemma WordsSeparate()
    ensures Separates(CRC)
  {
    forall a: bv32, b: bv32, v: bv32, w: bv32 ensures Separate(CRC, a, b, v, w) {
      if CRC.fits(a, 1) && CRC.fits(b, 1) && CRC.fits(v, 3) && CRC.fits(w, 3)
         && CRC.xor(a, CRC.up(v)) == CRC.xor(b, CRC.up(w)) {
        CrcWordSplits(a, b, v, w);
      }
    }
  }

  lemma JoinBit(w: bv32, b: bv32)
    requires b == 0 || b == 1
    ensures w == 0 ==> (w << 1) ^ b < 2
    ensures w < 2 ==> (w << 1) ^ b < 4
    ensures w < 4 ==> (w << 1) ^ b < 8
    ensures w < 8 ==> (w << 1) ^ b < 16
    ensures w < 16 ==> (w << 1) ^ b < 32
    ensures w < 32 ==> (w << 1) ^ b < 64
    ensures w < 64 ==> (w << 1) ^ b < 128
    ensures w < 128 ==> (w << 1) ^ b < 256
  {
  }

  lemma {:induction false} BitsBound(n: nat)
    requires n < 256
    ensures n < 2 ==> Bits(n) < 2
    ensures n < 4 ==> Bits(n) < 4
    ensures n < 8 ==> Bits(n) < 8
    ensures n < 16 ==> Bits(n) < 16
    ensures n < 32 ==> Bits(n) < 32
    ensures n < 64 ==> Bits(n) < 64
    ensures n < 128 ==> Bits(n) < 128
    ensures Bits(n) < 256
  {
    if n > 0 {
      BitsBound(n / 2);
      JoinBit(Bits(n / 2), Low(n));
    }
  }

  lemma HalfBound(n: nat)
    requires n < 256
    ensures Bits(n / 2) < 128
  {
    BitsBound(n / 2);
  }

  lemma SplitBit(w: bv32, b: bv32, x: bv32, d: bv32)
    requires w < 128 && x < 128 && (b == 0 || b == 1) && (d == 0 || d == 1)
    requires (w << 1) ^ b == (x << 1) ^ d
    ensures w == x && b == d
  {
  }

  lemma BitsUnfold(n: nat)
    ensures Bits(n) == (Bits(n / 2) << 1) ^ Low(n)
  {
    if n == 0 { assert ((0 as bv32) << 1) ^ 0 == 0; }
  }

  lemma HalvesDecide(n: nat, k: nat)
    requires n / 2 == k / 2 && Low(n) == Low(k)
    ensures n == k
  {
  }

  lemma {:induction false} BitsInjective(n: nat, k: nat)
    requires n < 256 && k < 256 && Bits(n) == Bits(k)
    ensures n == k
    decreases n + k
  {
    if n > 0 || k > 0 {
      BitsUnfold(n);
      BitsUnfold(k);
      HalfBound(n);
      HalfBound(k);
      SplitBit(Bits(n / 2), Low(n), Bits(k / 2), Low(k));
      BitsInjective(n / 2, k / 2);
      HalvesDecide(n, k);
    }
  }

  lemma CodeIsLawful()
    ensures CodesBytes(CRC)
  {
    forall c: char | IsByte(c) ensures CRC.fits(CRC.code(c), 1) { BitsBound(c as int); }
    forall c: char, d: char | IsByte(c) && IsByte(d) && CRC.code(c) == CRC.code(d) ensures c == d {
      BitsInjective(c as int, d as int);
    }
  }

  lemma GroupLawsHold(a: bv32, b: bv32, c: bv32)
    ensures GroupLaws(CRC, a, b, c)
  {
  }

  lemma XorMakesGroup()
    ensures IsGroup(CRC)
  {
    forall a: bv32, b: bv32, c: bv32 ensures GroupLaws(CRC, a, b, c) { GroupLawsHold(a, b, c); }
  }

  lemma ShiftAdditive(a: bv32, b: bv32)
    ensures Additive(CRC, Up, a, b)
  {
  }

  lemma ShiftIsLinear()
    ensures IsLinear(CRC, Up)
  {
    forall a: bv32, b: bv32 ensures Additive(CRC, Up, a, b) { ShiftAdditive(a, b); }
  }

  lemma StepIsOneToOne()
    ensures OneToOne(CRC)
  {
    XorMakesGroup();
    ByteStepIsLinear();
    ByteStepKeepsNonZero();
  }

  lemma CrcIsLawful()
    ensures Lawful(CRC)
  {
    StepIsOneToOne();
    ShiftIsLinear();
    ByteStepMovesDown();
    WordsHaveRoom();
    WordsSeparate();
    CodeIsLawful();
    LawfulFromLaws(CRC);
  }

  /// ## Error detection

  lemma WordValue(x: bv32)
    ensures (x as int) as bv32 == x
  {
  }

  lemma SameWord(x: bv32, y: bv32)
    requires x as int == y as int
    ensures x == y
  {
    WordValue(x);
    WordValue(y);
  }

  lemma XorUndone(x: bv32, y: bv32)
    requires x ^ INIT == y ^ INIT
    ensures x == y
  {
  }

  lemma SameFinal(x: bv32, y: bv32)
    requires (x ^ INIT) as int == (y ^ INIT) as int
    ensures x == y
  {
    SameWord(x ^ INIT, y ^ INIT);
    XorUndone(x, y);
  }

  lemma CrcDeterminesRegister(s: string, t: string)
    requires Crc(s) == Crc(t)
    ensures Register(CRC, INIT, s) == Register(CRC, INIT, t)
  {
    SameFinal(Register(CRC, INIT, s), Register(CRC, INIT, t));
  }

  /** Replacing up to four consecutive byte characters by different ones changes the checksum. */
  lemma BurstChangesCrc(p: string, u: string, v: string, q: string)
    requires |u| == |v| <= 4 && ByteChars(u) && ByteChars(v) && u != v
    ensures Crc(p + u + q) != Crc(p + v + q)
  {
    CrcIsLawful();
    BurstMovesRegister(CRC, INIT, p, u, v, q);
    if Crc(p + u + q) == Crc(p + v + q) { CrcDeterminesRegister(p + u + q, p + v + q); }
  }

  /** Two different byte strings of one length that agree outside four consecutive positions have
      different checksums. */
  lemma TypoChangesCrc(s: string, t: string, i: nat)
    requires AgreeOutside(s, t, i) && s != t && ByteChars(s) && ByteChars(t)
    ensures Crc(s) != Crc(t)
  {
    CrcIsLawful();
    TypoMovesRegister(CRC, INIT, s, t, i);
    if Crc(s) == Crc(t) { CrcDeterminesRegister(s, t); }
  }

  lemma CrcBound(s: string)
    ensures Crc(s) < 0x1_0000_0000
  {
  }

  /// ## The check value

  lemma Fed(s: string, c: char, code: bv32, before: bv32, after: bv32)
    requires Register(CRC, INIT, s) == before && Code(c) == code
    requires BitStep(BitStep(BitStep(BitStep(BitStep(BitStep(BitStep(BitStep(before ^ code)))))))) == after
    ensures Register(CRC, INIT, s + [c]) == after
  {
    assert (s + [c])[..|s|] == s;
    EightSteps(before ^ code);
  }

  lemma DigitCodes()
    ensures Code('1') == 0x31 && Code('2') == 0x32 && Code('3') == 0x33 && Code('4') == 0x34 && Code('5') == 0x35
    ensures Code('6') == 0x36 && Code('7') == 0x37 && Code('8') == 0x38 && Code('9') == 0x39
  {
    assert Bits(6) == 6 && Bits(7) == 7;
    assert Bits(12) == 12 && Bits(13) == 13 && Bits(14) == 14;
    assert Bits(24) == 24 && Bits(25) == 25 && Bits(26) == 26 && Bits(27) == 27 && Bits(28) == 28;
  }

  lemma CheckAfter3()
    ensures Register(CRC, INIT, "123") == 0x77B7_9C2D
  {
    DigitCodes();
    Fed("", '1', 0x31, 0xFFFF_FFFF, 0x7C23_1048);
    assert "" + ['1'] == "1";
    Fed("1", '2', 0x32, 0x7C23_1048, 0xB0AC_BB32);
    assert "1" + ['2'] == "12";
    Fed("12", '3', 0x33, 0xB0AC_BB32, 0x77B7_9C2D);
    assert "12" + ['3'] == "123";
  }

  lemma CheckAfter6()
    requires Register(CRC, INIT, "123") == 0x77B7_9C2D
    ensures Register(CRC, INIT, "123456") == 0xF68D_2C9E
  {
    DigitCodes();
    Fed("123", '4', 0x34, 0x77B7_9C2D, 0x641C_1F5C);
    assert "123" + ['4'] == "1234";
    Fed("1234", '5', 0x35, 0x641C_1F5C, 0x340A_C5E3);
    assert "1234" + ['5'] == "12345";
    Fed("12345", '6', 0x36, 0x340A_C5E3, 0xF68D_2C9E);
    assert "12345" + ['6'] == "123456";
  }

  lemma CheckAfter9()
    requires Register(CRC, INIT, "123456") == 0xF68D_2C9E
    ensures Register(CRC, INIT, "123456789") == 0x340B_C6D9
  {
    DigitCodes();
    Fed("123456", '7', 0x37, 0xF68D_2C9E, 0xAFFC_9660);
    assert "123456" + ['7'] == "1234567";
    Fed("1234567", '8', 0x38, 0xAFFC_9660, 0x651F_2550);
    assert "1234567" + ['8'] == "12345678";
    Fed("12345678", '9', 0x39, 0x651F_2550, 0x340B_C6D9);
    assert "12345678" + ['9'] == "123456789";
  }

  /** The value that catalogues of checksums give for CRC-32: the one of "123456789". */
  lemma CheckValue()
    ensures Register(CRC, INIT, "123456789") ^ INIT == 0xCBF4_3926
  {
    CheckAfter3();
    CheckAfter6();
    CheckAfter9();
  }
}
