/** The register repeats after exactly 32767 = 7 * 31 * 151 steps.

    Powers of x modulo the polynomial are computed by repeated squaring.  32767 is a period; 32767 / 151, 32767 / 31 and
    32767 / 7 are not; so no smaller number is. */
module CrcPeriod {
  import opened ErrorPatterns
  import opened CrcRegister
  import opened Crc16

  const PERIOD: nat := 32767

  /** x^(2k) modulo the polynomial, for k up to 16. */
  function EvenPower(k: nat): bv16 {
    if k == 0 then 0x0001 else if k == 1 then 0x0004 else if k == 2 then 0x0010 else if k == 3 then 0x0040 else
    if k == 4 then 0x0100 else if k == 5 then 0x0400 else if k == 6 then 0x1000 else if k == 7 then 0x4000 else
    if k == 8 then 0x1021 else if k == 9 then 0x4084 else if k == 10 then 0x1231 else if k == 11 then 0x48C4 else
    if k == 12 then 0x3331 else if k == 13 then 0xCCC4 else if k == 14 then 0x0373 else if k == 15 then 0x0DCC else
    0x3730
  }

  /** Add the square of the term of `c` below x^n. */
  function Term(c: bv16, n: nat, rest: bv16): bv16
    requires 1 <= n <= 16
  {
    if Bit(c, Mask(16 - n)) then EvenPower(n - 1) ^ rest else rest
  }

  /** The square of a polynomial, from the squares of its terms below x^n. */
  function SquareOf(c: bv16, n: nat): bv16
    requires n <= 16
  {
    if n == 0 then 0 else Term(c, n, SquareOf(c, n - 1))
  }

  /** The same, written out. */
  function Squared(c: bv16): bv16 {
    Term(c, 16, Term(c, 15, Term(c, 14, Term(c, 13, Term(c, 12, Term(c, 11, Term(c, 10, Term(c, 9,
    Term(c, 8, Term(c, 7, Term(c, 6, Term(c, 5, Term(c, 4, Term(c, 3, Term(c, 2, Term(c, 1, 0))))))))))))))))
  }

  lemma FourTerms(c: bv16, n: nat)
    requires n <= 12
    ensures SquareOf(c, n + 4) == Term(c, n + 4, Term(c, n + 3, Term(c, n + 2, Term(c, n + 1, SquareOf(c, n)))))
  {
    assert SquareOf(c, n + 2) == Term(c, n + 2, Term(c, n + 1, SquareOf(c, n)));
  }

  lemma SquaredIs(c: bv16)
    ensures Squared(c) == SquareOf(c, 16)
  {
    FourTerms(c, 0);
    FourTerms(c, 4);
    FourTerms(c, 8);
    FourTerms(c, 12);
  }

  lemma EvenPowerNext(k: nat)
    requires k < 16
    ensures EvenPower(k + 1) == Turn(Turn(EvenPower(k)))
  {
  }

  lemma TwoTurns(n: nat, a: bv16, b: bv16)
    requires b == Turn(Turn(a)) && Of(a) == CRC16.Pow(2 * n, ONE)
    ensures Of(b) == CRC16.Pow(2 * (n + 1), ONE)
  {
    OfTurn(a);
    OfTurn(Turn(a));
    assert CRC16.Pow(2 * n + 2, ONE) == Shift(Shift(CRC16.Pow(2 * n, ONE)));
  }

  lemma {:induction false} PowersUpTo(k: nat) returns (a: bv16)
    requires k <= 16
    ensures a == EvenPower(k) && Of(a) == CRC16.Pow(2 * k, ONE)
  {
    if k == 0 {
      a := 1;
      OfOne();
    } else {
      var b := PowersUpTo(k - 1);
      a := Turn(Turn(b));
      EvenPowerNext(k - 1);
      TwoTurns(k - 1, b, a);
    }
  }

  lemma EvenPowerIs(k: nat)
    requires k <= 16
    ensures Of(EvenPower(k)) == CRC16.Pow(2 * k, ONE)
  {
    var a := PowersUpTo(k);
  }

  lemma OfOne()
    ensures Of(1) == ONE && Of(0) == ZERO && Of(0x8000) == HIGH
  {
  }

  lemma OfTerm(c: bv16, n: nat, rest: bv16)
    requires 1 <= n <= 16
    ensures Of(Term(c, n, rest)) == if Of(c)[16 - n] then Xor(CRC16.Pow(2 * (n - 1), ONE), Of(rest)) else Of(rest)
  {
    EvenPowerIs(n - 1);
    OfChoice(Of(c)[16 - n], EvenPower(n - 1), rest);
  }

  lemma OfChoice(add: bool, a: bv16, rest: bv16)
    ensures Of(if add then a ^ rest else rest) == if add then Xor(Of(a), Of(rest)) else Of(rest)
  {
    OfXor(a, rest);
  }

  /** The square of the lowest n bits, from that of the lowest n - 1. */
  lemma SquareUnfold(w: Word, n: nat)
    requires 1 <= n <= 16
    ensures Square(CRC16, CRC16.LeftBy(w, 16 - n), n)
            == var rest := Square(CRC16, CRC16.LeftBy(w, 17 - n), n - 1);
               if w[16 - n] then Xor(CRC16.Pow(2 * (n - 1), ONE), rest) else rest
  {
    LeftByIs(w, 16 - n);
    LeftByIs(w, 17 - n);
    assert Left(CRC16.LeftBy(w, 16 - n)) == CRC16.LeftBy(w, 17 - n);
    assert Top(CRC16.LeftBy(w, 16 - n)) == w[16 - n];
  }

  lemma {:induction false} SquareIs(c: bv16, n: nat)
    requires n <= 16
    ensures Of(SquareOf(c, n)) == Square(CRC16, CRC16.LeftBy(Of(c), 16 - n), n)
  {
    if n == 0 {
      OfOne();
    } else {
      SquareUnfold(Of(c), n);
      SquareIs(c, n - 1);
      OfTerm(c, n, SquareOf(c, n - 1));
    }
  }

  lemma ReducePolynomial()
    ensures Squared(0x1021) == EvenPower(16)
    ensures Squared(0x0001) == 0x0001
  {
  }

  lemma IsFrobenius()
    ensures Frobenius(CRC16)
  {
    ReducePolynomial();
    OfOne();
    OfPolynomial();
    ShiftOfHigh();
    SquaredIs(0x1021);
    SquaredIs(0x0001);
    SquareIs(0x1021, 16);
    SquareIs(0x0001, 16);
    EvenPowerIs(16);
  }

  lemma {:induction false} SmallPower(n: nat)
    requires n < 16
    ensures CRC16.Pow(n, ONE) == Of(Mask(15 - n))
  {
    if n == 0 {
      OfOne();
    } else {
      SmallPower(n - 1);
      OfTurn(Mask(16 - n));
      assert Turn(Mask(16 - n)) == Mask(15 - n);
    }
  }

  lemma Doubled(n: nat, p: bv16, q: bv16)
    requires CRC16.Pow(n, ONE) == Of(p) && Squared(p) == q
    ensures CRC16.Pow(2 * n, ONE) == Of(q)
  {
    Lawful();
    IsFrobenius();
    Doubling(CRC16, n);
    SquaredIs(p);
    SquareIs(p, 16);
  }

  lemma DoubledPlusOne(n: nat, p: bv16, q: bv16)
    requires CRC16.Pow(n, ONE) == Of(p) && Turn(Squared(p)) == q
    ensures CRC16.Pow(2 * n + 1, ONE) == Of(q)
  {
    Doubled(n, p, Squared(p));
    OfTurn(Squared(p));
  }

  lemma Power217()
    ensures CRC16.Pow(217, ONE) == Of(0x48E3)
  {
    SmallPower(13);
    DoubledPlusOne(13, 0x2000, 0x89A9);
    Doubled(27, 0x89A9, 0x1168);
    Doubled(54, 0x1168, 0x3750);
    DoubledPlusOne(108, 0x3750, 0x48E3);
  }

  lemma Power1057()
    ensures CRC16.Pow(1057, ONE) == Of(0xF2AF)
  {
    SmallPower(8);
    Doubled(8, 0x0100, 0x1021);
    DoubledPlusOne(16, 0x1021, 0x6E60);
    Doubled(33, 0x6E60, 0xC1C6);
    Doubled(66, 0xC1C6, 0x4E8A);
    Doubled(132, 0x4E8A, 0x5946);
    Doubled(264, 0x5946, 0x78B3);
    DoubledPlusOne(528, 0x78B3, 0xF2AF);
  }

  lemma Power4681()
    ensures CRC16.Pow(4681, ONE) == Of(0x2C42)
  {
    SmallPower(9);
    Doubled(9, 0x0200, 0x4084);
    Doubled(18, 0x4084, 0x4363);
    DoubledPlusOne(36, 0x4363, 0x8FA6);
    Doubled(73, 0x8FA6, 0x4388);
    Doubled(146, 0x4388, 0x1396);
    DoubledPlusOne(292, 0x1396, 0x4500);
    Doubled(585, 0x4500, 0x0163);
    Doubled(1170, 0x0163, 0x0424);
    DoubledPlusOne(2340, 0x0424, 0x2C42);
  }

  lemma Power32767()
    ensures CRC16.Pow(32767, ONE) == Of(0x0001)
  {
    SmallPower(15);
    DoubledPlusOne(15, 0x8000, 0x1B98);
    DoubledPlusOne(31, 0x1B98, 0xD420);
    DoubledPlusOne(63, 0xD420, 0x577E);
    DoubledPlusOne(127, 0x577E, 0xCF04);
    DoubledPlusOne(255, 0xCF04, 0x09FE);
    DoubledPlusOne(511, 0x09FE, 0x1B62);
    DoubledPlusOne(1023, 0x1B62, 0x7EA8);
    DoubledPlusOne(2047, 0x7EA8, 0x554F);
    DoubledPlusOne(4095, 0x554F, 0x440E);
    DoubledPlusOne(8191, 0x440E, 0x222C);
    DoubledPlusOne(16383, 0x222C, 0x0001);
  }

  // ---------------------------------------------------------------------------
  // The period
  // ---------------------------------------------------------------------------

  lemma SmallDivisor(p: nat, g: nat, u: nat)
    requires p in {7, 31, 151} && p == g * u && 2 <= g <= 12
    ensures g == p
  {
    if g == 2 {} else if g == 3 {} else if g == 4 {} else if g == 5 {} else if g == 6 {} else if g == 7 {}
    else if g == 8 {} else if g == 9 {} else if g == 10 {} else if g == 11 {} else {}
  }

  lemma BothLarge(p: nat, g: nat, u: nat)
    requires p == g * u && g >= 13 && u >= 13
    ensures p >= 169
  {
    assert g * u >= 13 * u;
  }

  lemma FactorsArePositive(p: nat, g: nat, u: nat)
    requires p > 0 && p == g * u
    ensures u > 0
  {
  }

  lemma IsPrime(p: nat)
    requires p in {7, 31, 151}
    ensures Prime(p)
  {
    forall g: nat, u: nat | g >= 1 && p == g * u ensures g == 1 || g == p {
      FactorsArePositive(p, g, u);
      if 2 <= g <= 12 {
        SmallDivisor(p, g, u);
      } else if g >= 13 {
        if u >= 13 { BothLarge(p, g, u); }
        if u >= 2 { assert p == u * g; SmallDivisor(p, u, g); }
      }
    }
  }

  lemma NotOne(n: nat, c: bv16)
    requires CRC16.Pow(n, ONE) == Of(c) && c != 1
    ensures !Period(CRC16, n)
  {
    OfOne();
    if Of(c) == ONE { OfInjective(c, 1); }
  }

  lemma Periods()
    ensures Period(CRC16, 32767)
    ensures !Period(CRC16, 217) && !Period(CRC16, 1057) && !Period(CRC16, 4681)
  {
    OfOne();
    Power217();
    Power1057();
    Power4681();
    Power32767();
    NotOne(217, 0x48E3);
    NotOne(1057, 0xF2AF);
    NotOne(4681, 0x2C42);
  }

  /** Numbers divisible by 7, 31 and 151. */
  lemma CommonMultiple(d: nat, a: nat, b: nat, c: nat)
    requires d == 7 * a == 31 * b == 151 * c
    ensures d % PERIOD == 0
  {
    MultipleOf(d, 23 * (5 * a - 22 * b) - 16 * c);
  }

  lemma MultipleOf(d: nat, k: int)
    requires d == PERIOD * k
    ensures d % PERIOD == 0
  {
  }

  lemma PrimesDivide(d: nat)
    requires CRC16.Lawful() && Period(CRC16, d)
    ensures d % PERIOD == 0
  {
    Periods();
    IsPrime(7);
    IsPrime(31);
    IsPrime(151);
    var a := PrimeDividesPeriod(CRC16, 4681, 7, d);
    var b := PrimeDividesPeriod(CRC16, 1057, 31, d);
    var c := PrimeDividesPeriod(CRC16, 217, 151, d);
    CommonMultiple(d, a, b, c);
  }

  /** Main result: the register returns to where it was exactly after the multiples of 32767 steps. */
  lemma PeriodIs(d: nat)
    ensures Period(CRC16, d) <==> d % PERIOD == 0
  {
    Lawful();
    if Period(CRC16, d) {
      PrimesDivide(d);
    }
    if d % PERIOD == 0 {
      Periods();
      PeriodMultiple(CRC16, PERIOD, d / PERIOD);
    }
  }
}
