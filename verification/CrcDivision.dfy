/** Which CRC the journal computes: division of the message by the generator of RFC 1952 over GF(2), written out as
    long division on coefficients, with no word, shift register or table in it. */
module CrcDivision {
  import opened Crc

  /** Coefficients of a polynomial over GF(2), that of the highest power first. */
  type Polynomial = seq<bool>

  /** The powers of x in the generator. */
  const EXPONENTS: set<int> := {32, 26, 23, 22, 16, 12, 11, 10, 8, 7, 5, 4, 2, 1, 0}

  function Generator(): (g: Polynomial)
    ensures |g| == 33
  {
    seq(33, i requires 0 <= i < 33 => 32 - i in EXPONENTS)
  }

  function Zeros(n: nat): (z: Polynomial)
    ensures |z| == n && forall i :: 0 <= i < n ==> !z[i]
  {
    seq(n, i => false)
  }

  function Plus(a: Polynomial, b: Polynomial): (sum: Polynomial)
    requires |a| == |b|
    ensures |sum| == |a| && forall i :: 0 <= i < |a| ==> sum[i] == (a[i] != b[i])
  {
    seq(|a|, i requires 0 <= i < |a| => a[i] != b[i])
  }

  function Complement(a: Polynomial): (c: Polynomial)
    ensures |c| == |a| && forall i :: 0 <= i < |a| ==> c[i] == !a[i]
  {
    seq(|a|, i requires 0 <= i < |a| => !a[i])
  }

  /** Long division: while the degree allows, the leading term is cancelled by the generator. */
  function Remainder(p: Polynomial): (r: Polynomial)
    ensures |p| >= 32 ==> |r| == 32
    decreases |p|
  {
    if |p| <= 32 then p
    else if p[0] then Remainder(Plus(p[..33], Generator())[1..] + p[33..])
    else Remainder(p[1..])
  }

  /** The `n` lowest bits of a word, least significant first. */
  function LowBits(c: Word, n: nat): (bits: Polynomial)
    ensures |bits| == n
    decreases n
  {
    if n == 0 then [] else [Odd(c)] + LowBits(Half(c), n - 1)
  }

  /** The message: its bytes in order, each least significant bit first. */
  function Message(data: seq<bv8>): Polynomial {
    if data == [] then [] else LowBits(data[0] as Word, 8) + Message(data[1..])
  }

  /** What is divided: the message times x^32, with its first 32 coefficients complemented. */
  function Dividend(data: seq<bv8>): (p: Polynomial)
    ensures |p| >= 32
  {
    var p := Message(data) + Zeros(32);
    Complement(p[..32]) + p[32..]
  }

  /** The checksum is the complement of that remainder, its highest power in the lowest bit. */
  lemma Crc32IsRemainder(data: seq<bv8>)
    ensures LowBits(Crc32(data), 32) == Complement(Remainder(Dividend(data)))
  {
    hide Remainder, LowBits, Odd, Half, Xor;
    var m := Message(data);
    var c := BitwiseCrc(0xFFFF_FFFF, data);
    AllOnes();
    BytesAreFed(0xFFFF_FFFF, data);
    RegisterHoldsRemainder(0xFFFF_FFFF, m);
    assert Plus(m + Zeros(32), LowBits(0xFFFF_FFFF, 32) + Zeros(|m|)) == Dividend(data);
    BitsOfXor(c, 0xFFFF_FFFF, 32);
    assert Plus(LowBits(c, 32), LowBits(0xFFFF_FFFF, 32)) == Complement(LowBits(c, 32));
  }

  /** And those 32 bits are all there is to a word. */
  lemma BitsDetermine(a: Word, b: Word)
    requires LowBits(a, 32) == LowBits(b, 32)
    ensures a == b
  {
    hide LowBits;
    NothingAbove(a);
    NothingAbove(b);
    EqualUpTo(a, b, 32);
  }

  /** The check value that CRC catalogues list for this sum: the digits 1 to 9 in ASCII. */
  lemma CheckValue()
    ensures Crc32([0x31, 0x32, 0x33, 0x34, 0x35, 0x36, 0x37, 0x38, 0x39]) == 0xCBF4_3926
  {
    hide BitSteps, Xor;
    Digit1(); Digit2(); Digit3();
    Digit4(); Digit5(); Digit6();
    Digit7(); Digit8(); Digit9();
    FeedBytes(0xFFFF_FFFF, 0x31, 0x32, 0x33);
    FeedBytes(0x77B7_9C2D, 0x34, 0x35, 0x36);
    FeedBytes(0xF68D_2C9E, 0x37, 0x38, 0x39);
    FeedThree(0xFFFF_FFFF, [0x31, 0x32, 0x33], [0x34, 0x35, 0x36], [0x37, 0x38, 0x39]);
    assert [0x31, 0x32, 0x33, 0x34, 0x35, 0x36, 0x37, 0x38, 0x39]
        == [0x31, 0x32, 0x33] + [0x34, 0x35, 0x36] + [0x37, 0x38, 0x39];
    LastInversion();
  }

  lemma LastInversion()
    ensures Xor(0x340B_C6D9, 0xFFFF_FFFF) == 0xCBF4_3926
  {
  }

  lemma FeedBytes(c: Word, x: bv8, y: bv8, z: bv8)
    ensures BitwiseCrc(c, [x, y, z])
         == BitSteps(Xor(BitSteps(Xor(BitSteps(Xor(c, x as Word), 8), y as Word), 8), z as Word), 8)
  {
    hide BitSteps, Xor;
    var c1 := BitSteps(Xor(c, x as Word), 8);
    var c2 := BitSteps(Xor(c1, y as Word), 8);
    assert [x, y, z][1..] == [y, z] && [y, z][1..] == [z] && [z][1..] == [];
    assert BitwiseCrc(c, [x, y, z]) == BitwiseCrc(c1, [y, z]) == BitwiseCrc(c2, [z]);
    assert BitwiseCrc(c2, [z]) == BitwiseCrc(BitSteps(Xor(c2, z as Word), 8), []);
  }

  // ----- The shift register -----

  /** Feeding a message bit by bit. */
  function Feed(c: Word, m: Polynomial): Word
    decreases |m|
  {
    if m == [] then c else Feed(BitStep(Xor(c, Unit(m[0]))), m[1..])
  }

  function Unit(bit: bool): Word {
    if bit then 1 else 0
  }

  function Shifted(c: Word, n: nat): Word
    decreases n
  {
    if n == 0 then c else Shifted(Half(c), n - 1)
  }

  lemma {:induction false} BitsOfXor(a: Word, b: Word, n: nat)
    ensures LowBits(Xor(a, b), n) == Plus(LowBits(a, n), LowBits(b, n))
    decreases n
  {
    hide Odd, Half, Xor;
    if n > 0 {
      OddXor(a, b);
      HalfXor(a, b);
      BitsOfXor(Half(a), Half(b), n - 1);
    }
  }

  lemma {:induction false} BitsSnoc(c: Word, n: nat)
    ensures LowBits(c, n + 1) == LowBits(c, n) + [Odd(Shifted(c, n))]
    decreases n
  {
    hide Odd, Half;
    if n > 0 {
      BitsSnoc(Half(c), n - 1);
    }
  }

  lemma ShiftedBy8(c: Word)
    ensures Shifted(c, 8) == Drop8(c)
  {
    var c1, c2, c3, c4 := c >> 1, c >> 2, c >> 3, c >> 4;
    var c5, c6, c7, c8 := c >> 5, c >> 6, c >> 7, c >> 8;
    assert Half(c) == c1 && Half(c1) == c2 && Half(c2) == c3 && Half(c3) == c4;
    assert Half(c4) == c5 && Half(c5) == c6 && Half(c6) == c7 && Half(c7) == c8;
    hide Half;
    assert Shifted(c, 8) == Shifted(c1, 7) == Shifted(c2, 6) == Shifted(c3, 5) == Shifted(c4, 4);
    assert Shifted(c4, 4) == Shifted(c5, 3) == Shifted(c6, 2) == Shifted(c7, 1) == Shifted(c8, 0);
  }

  lemma {:induction false} ShiftedAdd(c: Word, m: nat, n: nat)
    ensures Shifted(Shifted(c, m), n) == Shifted(c, m + n)
    decreases m
  {
    hide Half;
    if m > 0 {
      ShiftedAdd(Half(c), m - 1, n);
    }
  }

  lemma NothingAbove(c: Word)
    ensures Shifted(c, 32) == 0
  {
    DropsAll(c);
    hide Shifted, Drop8;
    ShiftedBy8(c);
    ShiftedBy8(Drop8(c));
    ShiftedBy8(Drop8(Drop8(c)));
    ShiftedBy8(Drop8(Drop8(Drop8(c))));
    ShiftedAdd(c, 8, 8);
    ShiftedAdd(c, 16, 8);
    ShiftedAdd(c, 24, 8);
  }

  lemma DropsAll(c: Word)
    ensures Drop8(Drop8(Drop8(Drop8(c)))) == 0
  {
  }

  lemma {:induction false} EqualUpTo(a: Word, b: Word, n: nat)
    requires LowBits(a, n) == LowBits(b, n) && Shifted(a, n) == Shifted(b, n)
    ensures a == b
    decreases n
  {
    hide Odd, Half;
    if n > 0 {
      assert LowBits(a, n)[1..] == LowBits(Half(a), n - 1);
      assert LowBits(b, n)[1..] == LowBits(Half(b), n - 1);
      assert LowBits(a, n)[0] == LowBits(b, n)[0];
      EqualUpTo(Half(a), Half(b), n - 1);
      SameHalfSameBit(a, b);
    }
  }

  lemma SameHalfSameBit(a: Word, b: Word)
    requires Half(a) == Half(b) && Odd(a) == Odd(b)
    ensures a == b
  {
  }

  /** Shifting moves every coefficient one power up. */
  lemma BitsOfHalf(c: Word)
    ensures LowBits(Half(c), 32) == LowBits(c, 32)[1..] + [false]
    ensures LowBits(c, 32)[0] == Odd(c)
  {
    hide Odd, Half;
    NothingAbove(c);
    ZeroIsEven();
    BitsSnoc(Half(c), 31);
  }

  lemma ZeroIsEven()
    ensures !Odd(0) && Half(0) == 0
  {
  }

  lemma {:induction false} BitsOfZero(n: nat)
    ensures LowBits(0, n) == Zeros(n)
    decreases n
  {
    ZeroIsEven();
    hide Odd, Half;
    if n > 0 {
      BitsOfZero(n - 1);
    }
  }

  lemma BitsOfUnit(bit: bool)
    ensures LowBits(Unit(bit), 32) == [bit] + Zeros(31)
  {
    UnitIsOneBit(bit);
    hide Odd, Half, Unit;
    BitsOfZero(31);
  }

  lemma UnitIsOneBit(bit: bool)
    ensures Odd(Unit(bit)) == bit && Half(Unit(bit)) == 0
  {
  }

  /** One step of the register is one step of the division. */
  lemma StepBits(c: Word)
    ensures var r := LowBits(c, 32);
      LowBits(BitStep(c), 32) == if r[0] then Plus(r[1..] + [false], Generator()[1..]) else r[1..] + [false]
  {
    BitsOfHalf(c);
    PolynomialIsGenerator();
    BitsOfXor(POLYNOMIAL, Half(c), 32);
    hide Odd, Half, Xor, LowBits;
  }

  lemma {:induction false} RegisterHoldsRemainder(c: Word, m: Polynomial)
    ensures Remainder(Plus(m + Zeros(32), LowBits(c, 32) + Zeros(|m|))) == LowBits(Feed(c, m), 32)
    decreases |m|
  {
    hide BitStep, Xor, LowBits, Unit;
    var p := Plus(m + Zeros(32), LowBits(c, 32) + Zeros(|m|));
    if m == [] {
      assert p == LowBits(c, 32);
    } else {
      var d := Xor(c, Unit(m[0]));
      BitsOfXor(c, Unit(m[0]), 32);
      BitsOfUnit(m[0]);
      StepBits(d);
      RegisterHoldsRemainder(BitStep(d), m[1..]);
      var next := Plus(m[1..] + Zeros(32), LowBits(BitStep(d), 32) + Zeros(|m| - 1));
      OneStep(m, LowBits(c, 32), LowBits(d, 32), LowBits(BitStep(d), 32));
    }
  }

  lemma OneStep(m: Polynomial, r: Polynomial, s: Polynomial, t: Polynomial)
    requires m != [] && |r| == 32 && s == Plus(r, [m[0]] + Zeros(31))
    requires t == if s[0] then Plus(s[1..] + [false], Generator()[1..]) else s[1..] + [false]
    ensures Remainder(Plus(m + Zeros(32), r + Zeros(|m|))) == Remainder(Plus(m[1..] + Zeros(32), t + Zeros(|m| - 1)))
  {
    var p := Plus(m + Zeros(32), r + Zeros(|m|));
    var next := Plus(m[1..] + Zeros(32), t + Zeros(|m| - 1));
    assert |p| > 32 && p[0] == s[0];
    if s[0] {
      assert Plus(p[..33], Generator())[1..] + p[33..] == next;
    } else {
      assert p[1..] == next;
    }
  }

  // ----- Bytes into bits -----

  lemma PeelBit(c: Word, x: Word)
    ensures BitStep(Xor(c, x)) == Xor(BitStep(Xor(c, Unit(Odd(x)))), Half(x))
  {
    hide Odd, Half, Xor, Unit, BitStep;
    var u := Unit(Odd(x));
    LowBitGone(x);
    BitStepXor(Xor(c, u), Xor(u, x));
    XorAssoc(c, u, Xor(u, x));
    XorAssoc(u, u, x);
    XorSelf(u);
    XorSelf(x);
    XorComm(0, x);
  }

  lemma LowBitGone(x: Word)
    ensures BitStep(Xor(Unit(Odd(x)), x)) == Half(x)
  {
    if Odd(x) {
      OneGone(x);
    } else {
      XorComm(0, x);
      XorSelf(x);
    }
    hide Odd, Half, Xor;
  }

  lemma OneGone(x: Word)
    requires Odd(x)
    ensures !Odd(Xor(1, x)) && Half(Xor(1, x)) == Half(x)
  {
  }

  lemma {:induction false} BitsAreFed(c: Word, x: Word, n: nat)
    requires Shifted(x, n) == 0
    ensures Feed(c, LowBits(x, n)) == BitSteps(Xor(c, x), n)
    decreases n
  {
    hide BitStep, Xor, Odd, Half, Unit;
    if n == 0 {
      XorSelf(c);
    } else {
      PeelBit(c, x);
      assert LowBits(x, n)[1..] == LowBits(Half(x), n - 1);
      BitsAreFed(BitStep(Xor(c, Unit(Odd(x)))), Half(x), n - 1);
    }
  }

  lemma {:induction false} FeedConcat(c: Word, a: Polynomial, b: Polynomial)
    ensures Feed(c, a + b) == Feed(Feed(c, a), b)
    decreases |a|
  {
    hide BitStep, Xor, Unit;
    if a == [] {
      assert a + b == b;
    } else {
      FeedConcat(BitStep(Xor(c, Unit(a[0]))), a[1..], b);
      assert (a + b)[1..] == a[1..] + b;
    }
  }

  lemma ByteIsShort(b: bv8)
    ensures Drop8(b as Word) == 0
  {
  }

  lemma {:induction false} BytesAreFed(c: Word, data: seq<bv8>)
    ensures Feed(c, Message(data)) == BitwiseCrc(c, data)
    decreases |data|
  {
    hide Feed, LowBits, BitSteps, Xor, Shifted, Drop8;
    if data == [] {
      NothingFed(c);
    } else {
      var x := data[0] as Word;
      ByteIsShort(data[0]);
      ShiftedBy8(x);
      BitsAreFed(c, x, 8);
      FeedConcat(c, LowBits(x, 8), Message(data[1..]));
      BytesAreFed(BitSteps(Xor(c, x), 8), data[1..]);
    }
  }

  lemma NothingFed(c: Word)
    ensures Feed(c, []) == c
  {
  }

  // ----- Constants, a byte at a time -----

  lemma {:induction false} BitsSplit(c: Word, m: nat, n: nat)
    ensures LowBits(c, m + n) == LowBits(c, m) + LowBits(Shifted(c, m), n)
    decreases m
  {
    hide Odd, Half;
    if m > 0 {
      BitsSplit(Half(c), m - 1, n);
    }
  }

  predicate Has(c: Word, mask: Word) {
    c & mask == mask
  }

  function Drop4(c: Word): Word {
    Half(Half(Half(Half(c))))
  }

  lemma ByteBits(c: Word, n: nat)
    ensures LowBits(c, 8 + n)
         == [Has(c, 1), Has(c, 2), Has(c, 4), Has(c, 8), Has(c, 16), Has(c, 32), Has(c, 64), Has(c, 128)]
            + LowBits(Drop8(c), n)
  {
    hide Shifted, LowBits, Has, Drop4, Drop8;
    FourBits(c);
    FourBits(Drop4(c));
    HighFourBits(c);
    BitsSplit(c, 4, 4);
    ShiftedBy8(c);
    BitsSplit(c, 8, n);
  }

  lemma FourBits(c: Word)
    ensures LowBits(c, 4) == [Has(c, 1), Has(c, 2), Has(c, 4), Has(c, 8)]
    ensures Shifted(c, 4) == Drop4(c)
  {
    FourHalves(c);
    hide Odd, Half, Has;
    var c1, c2, c3 := Half(c), Half(Half(c)), Half(Half(Half(c)));
    assert LowBits(c2, 2) == [Odd(c2), Odd(c3)];
    assert LowBits(c, 4) == [Odd(c), Odd(c1)] + LowBits(c2, 2);
    assert Shifted(c, 4) == Shifted(c2, 2);
  }

  lemma FourHalves(c: Word)
    ensures Odd(c) == Has(c, 1) && Odd(Half(c)) == Has(c, 2)
    ensures Odd(Half(Half(c))) == Has(c, 4) && Odd(Half(Half(Half(c)))) == Has(c, 8)
  {
    hide Odd, Half, Has;
    MaskOfHalf(c);
    MaskOfHalf(Half(c));
    MaskOfHalf(Half(Half(c)));
    MaskOfHalf(Half(Half(Half(c))));
  }

  lemma MaskOfHalf(c: Word)
    ensures Odd(c) == Has(c, 1)
    ensures Has(Half(c), 1) == Has(c, 2) && Has(Half(c), 2) == Has(c, 4) && Has(Half(c), 4) == Has(c, 8)
    ensures Has(Half(c), 8) == Has(c, 16) && Has(Half(c), 16) == Has(c, 32)
    ensures Has(Half(c), 32) == Has(c, 64) && Has(Half(c), 64) == Has(c, 128)
  {
  }

  lemma HighFourBits(c: Word)
    ensures Has(Drop4(c), 1) == Has(c, 16) && Has(Drop4(c), 2) == Has(c, 32)
    ensures Has(Drop4(c), 4) == Has(c, 64) && Has(Drop4(c), 8) == Has(c, 128)
  {
    hide Odd, Half, Has;
    MaskOfHalf(c);
    MaskOfHalf(Half(c));
    MaskOfHalf(Half(Half(c)));
    MaskOfHalf(Half(Half(Half(c))));
  }

  lemma AllOnes()
    ensures LowBits(0xFFFF_FFFF, 32) == Complement(Zeros(32))
  {
    hide LowBits;
    ByteBits(0xFFFF_FFFF, 24);
    ByteBits(0x00FF_FFFF, 16);
    ByteBits(0x0000_FFFF, 8);
    ByteBits(0x0000_00FF, 0);
    BitsOfZero(0);
  }

  /** The constant of the shift register is the generator without its leading term. */
  lemma PolynomialIsGenerator()
    ensures LowBits(POLYNOMIAL, 32) == Generator()[1..]
  {
    hide LowBits;
    ByteBits(0xEDB8_8320, 24);
    ByteBits(0x00ED_B883, 16);
    ByteBits(0x0000_EDB8, 8);
    ByteBits(0x0000_00ED, 0);
    BitsOfZero(0);
  }
  lemma Digit1()
    ensures BitSteps(Xor(0xFFFF_FFFF, 0x31), 8) == 0x7C23_1048
  {
    assert Xor(0xFFFF_FFFF, 0x31) == 0xFFFF_FFCE;
    assert BitStep(0xFFFF_FFCE) == 0x7FFF_FFE7 && BitStep(0x7FFF_FFE7) == 0xD247_7CD3;
    assert BitStep(0xD247_7CD3) == 0x849B_3D49 && BitStep(0x849B_3D49) == 0xAFF5_1D84;
    assert BitStep(0xAFF5_1D84) == 0x57FA_8EC2 && BitStep(0x57FA_8EC2) == 0x2BFD_4761;
    assert BitStep(0x2BFD_4761) == 0xF846_2090 && BitStep(0xF846_2090) == 0x7C23_1048;
    hide Xor, BitStep;
    assert BitSteps(0xAFF5_1D84, 4) == 0x7C23_1048;
  }

  lemma Digit2()
    ensures BitSteps(Xor(0x7C23_1048, 0x32), 8) == 0xB0AC_BB32
  {
    assert Xor(0x7C23_1048, 0x32) == 0x7C23_107A;
    assert BitStep(0x7C23_107A) == 0x3E11_883D && BitStep(0x3E11_883D) == 0xF2B0_473E;
    assert BitStep(0xF2B0_473E) == 0x7958_239F && BitStep(0x7958_239F) == 0xD114_92EF;
    assert BitStep(0xD114_92EF) == 0x8532_CA57 && BitStep(0x8532_CA57) == 0xAF21_E60B;
    assert BitStep(0xAF21_E60B) == 0xBA28_7025 && BitStep(0xBA28_7025) == 0xB0AC_BB32;
    hide Xor, BitStep;
    assert BitSteps(0xD114_92EF, 4) == 0xB0AC_BB32;
  }

  lemma Digit3()
    ensures BitSteps(Xor(0xB0AC_BB32, 0x33), 8) == 0x77B7_9C2D
  {
    assert Xor(0xB0AC_BB32, 0x33) == 0xB0AC_BB01;
    assert BitStep(0xB0AC_BB01) == 0xB5EE_DEA0 && BitStep(0xB5EE_DEA0) == 0x5AF7_6F50;
    assert BitStep(0x5AF7_6F50) == 0x2D7B_B7A8 && BitStep(0x2D7B_B7A8) == 0x16BD_DBD4;
    assert BitStep(0x16BD_DBD4) == 0x0B5E_EDEA && BitStep(0x0B5E_EDEA) == 0x05AF_76F5;
    assert BitStep(0x05AF_76F5) == 0xEF6F_385A && BitStep(0xEF6F_385A) == 0x77B7_9C2D;
    hide Xor, BitStep;
    assert BitSteps(0x16BD_DBD4, 4) == 0x77B7_9C2D;
  }

  lemma Digit4()
    ensures BitSteps(Xor(0x77B7_9C2D, 0x34), 8) == 0x641C_1F5C
  {
    assert Xor(0x77B7_9C2D, 0x34) == 0x77B7_9C19;
    assert BitStep(0x77B7_9C19) == 0xD663_4D2C && BitStep(0xD663_4D2C) == 0x6B31_A696;
    assert BitStep(0x6B31_A696) == 0x3598_D34B && BitStep(0x3598_D34B) == 0xF774_EA85;
    assert BitStep(0xF774_EA85) == 0x9602_F662 && BitStep(0x9602_F662) == 0x4B01_7B31;
    assert BitStep(0x4B01_7B31) == 0xC838_3EB8 && BitStep(0xC838_3EB8) == 0x641C_1F5C;
    hide Xor, BitStep;
    assert BitSteps(0xF774_EA85, 4) == 0x641C_1F5C;
  }

  lemma Digit5()
    ensures BitSteps(Xor(0x641C_1F5C, 0x35), 8) == 0x340A_C5E3
  {
    assert Xor(0x641C_1F5C, 0x35) == 0x641C_1F69;
    assert BitStep(0x641C_1F69) == 0xDFB6_8C94 && BitStep(0xDFB6_8C94) == 0x6FDB_464A;
    assert BitStep(0x6FDB_464A) == 0x37ED_A325 && BitStep(0x37ED_A325) == 0xF64E_52B2;
    assert BitStep(0xF64E_52B2) == 0x7B27_2959 && BitStep(0x7B27_2959) == 0xD02B_178C;
    assert BitStep(0xD02B_178C) == 0x6815_8BC6 && BitStep(0x6815_8BC6) == 0x340A_C5E3;
    hide Xor, BitStep;
    assert BitSteps(0xF64E_52B2, 4) == 0x340A_C5E3;
  }

  lemma Digit6()
    ensures BitSteps(Xor(0x340A_C5E3, 0x36), 8) == 0xF68D_2C9E
  {
    assert Xor(0x340A_C5E3, 0x36) == 0x340A_C5D5;
    assert BitStep(0x340A_C5D5) == 0xF7BD_E1CA && BitStep(0xF7BD_E1CA) == 0x7BDE_F0E5;
    assert BitStep(0x7BDE_F0E5) == 0xD057_FB52 && BitStep(0xD057_FB52) == 0x682B_FDA9;
    assert BitStep(0x682B_FDA9) == 0xD9AD_7DF4 && BitStep(0xD9AD_7DF4) == 0x6CD6_BEFA;
    assert BitStep(0x6CD6_BEFA) == 0x366B_5F7D && BitStep(0x366B_5F7D) == 0xF68D_2C9E;
    hide Xor, BitStep;
    assert BitSteps(0x682B_FDA9, 4) == 0xF68D_2C9E;
  }

  lemma Digit7()
    ensures BitSteps(Xor(0xF68D_2C9E, 0x37), 8) == 0xAFFC_9660
  {
    assert Xor(0xF68D_2C9E, 0x37) == 0xF68D_2CA9;
    assert BitStep(0xF68D_2CA9) == 0x96FE_1574 && BitStep(0x96FE_1574) == 0x4B7F_0ABA;
    assert BitStep(0x4B7F_0ABA) == 0x25BF_855D && BitStep(0x25BF_855D) == 0xFF67_418E;
    assert BitStep(0xFF67_418E) == 0x7FB3_A0C7 && BitStep(0x7FB3_A0C7) == 0xD261_5343;
    assert BitStep(0xD261_5343) == 0x8488_2A81 && BitStep(0x8488_2A81) == 0xAFFC_9660;
    hide Xor, BitStep;
    assert BitSteps(0xFF67_418E, 4) == 0xAFFC_9660;
  }

  lemma Digit8()
    ensures BitSteps(Xor(0xAFFC_9660, 0x38), 8) == 0x651F_2550
  {
    assert Xor(0xAFFC_9660, 0x38) == 0xAFFC_9658;
    assert BitStep(0xAFFC_9658) == 0x57FE_4B2C && BitStep(0x57FE_4B2C) == 0x2BFF_2596;
    assert BitStep(0x2BFF_2596) == 0x15FF_92CB && BitStep(0x15FF_92CB) == 0xE747_4A45;
    assert BitStep(0xE747_4A45) == 0x9E1B_2602 && BitStep(0x9E1B_2602) == 0x4F0D_9301;
    assert BitStep(0x4F0D_9301) == 0xCA3E_4AA0 && BitStep(0xCA3E_4AA0) == 0x651F_2550;
    hide Xor, BitStep;
    assert BitSteps(0xE747_4A45, 4) == 0x651F_2550;
  }

  lemma Digit9()
    ensures BitSteps(Xor(0x651F_2550, 0x39), 8) == 0x340B_C6D9
  {
    assert Xor(0x651F_2550, 0x39) == 0x651F_2569;
    assert BitStep(0x651F_2569) == 0xDF37_1194 && BitStep(0xDF37_1194) == 0x6F9B_88CA;
    assert BitStep(0x6F9B_88CA) == 0x37CD_C465 && BitStep(0x37CD_C465) == 0xF65E_6112;
    assert BitStep(0xF65E_6112) == 0x7B2F_3089 && BitStep(0x7B2F_3089) == 0xD02F_1B64;
    assert BitStep(0xD02F_1B64) == 0x6817_8DB2 && BitStep(0x6817_8DB2) == 0x340B_C6D9;
    hide Xor, BitStep;
    assert BitSteps(0xF65E_6112, 4) == 0x340B_C6D9;
  }
}
