/** The register of CRC-16/CCITT-FALSE bit by bit, most significant first: polynomial x^16 + x^12 + x^5 + 1. */
module CrcRegister {
  import opened LinearRegister
  import opened ErrorPatterns

  type Word = w: seq<bool> | |w| == 16 witness Zeros(16)

  const ZERO: Word := Zeros(16)
  const ONE: Word := Spike(16, 15)
  const HIGH: Word := Spike(16, 0)
  const POLY: Word := XorBits(XorBits(Spike(16, 3), Spike(16, 10)), Spike(16, 15))

  function Xor(a: Word, b: Word): Word { XorBits(a, b) }

  function Left(c: Word): Word { c[1..] + [false] }

  function Top(c: Word): bool { c[0] }

  /** One turn of the inner loop. */
  function Shift(r: Word): Word { if r[0] then Xor(Left(r), POLY) else Left(r) }

  const CRC16: Register<Word> := Register(16, ZERO, ONE, HIGH, Xor, Shift, Left, Top)

  lemma {:induction false} LeftByIs(c: Word, n: nat)
    requires n <= 16
    ensures CRC16.LeftBy(c, n) == c[n..] + Zeros(n)
    decreases n
  {
    if n > 0 {
      LeftByIs(Left(c), n - 1);
    }
  }

  lemma {:induction false} TopBitsIs(c: Word, n: nat)
    requires n <= 16
    ensures CRC16.TopBits(c, n) == c[..n]
    decreases n
  {
    if n > 0 {
      TopBitsIs(Left(c), n - 1);
    }
  }

  lemma ShiftLinear(a: Word, b: Word)
    ensures Shift(Xor(a, b)) == Xor(Shift(a), Shift(b))
    ensures Left(Xor(a, b)) == Xor(Left(a), Left(b))
  {
  }

  lemma ShiftZero(a: Word)
    ensures Shift(a) == ZERO ==> a == ZERO
  {
    if Shift(a) == ZERO {
      assert !Shift(a)[15];
      forall i | 0 < i < 16 ensures !a[i] { assert Shift(a)[i - 1] == ZERO[i - 1]; }
    }
  }

  lemma ShiftOfHigh()
    ensures Shift(HIGH) == POLY
  {
  }

  lemma Lawful()
    ensures CRC16.Lawful()
  {
    forall a: Word, b: Word, c: Word ensures CRC16.Associates(a, b, c) {
      assert Xor(Xor(a, b), c) == Xor(a, Xor(b, c));
    }
    forall a: Word, b: Word ensures CRC16.Commutes(a, b) { assert Xor(a, b) == Xor(b, a); }
    forall a: Word ensures CRC16.Cancels(a) { assert Xor(a, ZERO) == a && Xor(a, a) == ZERO; }
    forall a: Word, b: Word ensures CRC16.Linear(a, b) { ShiftLinear(a, b); }
    forall a: Word ensures CRC16.Steps(a) {
      ShiftZero(a);
      ShiftOfHigh();
      LeftByIs(a, 16);
      assert a[16..] + Zeros(16) == ZERO;
    }
  }

  lemma {:induction false} ParityOfSpike(k: nat, n: nat)
    requires k < n <= 16
    ensures Parity(CRC16, Spike(16, k), n)
  {
    var left := Left(Spike(16, k));
    if k > 0 {
      assert left == Spike(16, k - 1);
      ParityOfSpike(k - 1, n - 1);
    } else {
      Lawful();
      assert left == ZERO;
      ParityOfZero(n - 1);
    }
  }

  lemma {:induction false} ParityOfZero(n: nat)
    ensures !Parity(CRC16, ZERO, n)
  {
    if n > 0 {
      assert Left(ZERO) == ZERO;
      ParityOfZero(n - 1);
    }
  }

  /** The polynomial has four terms, so it is divisible by x + 1. */
  lemma PolynomialIsEven()
    ensures EvenPolynomial(CRC16)
  {
    Lawful();
    ShiftOfHigh();
    ParityOfSpike(0, 16);
    ParityOfSpike(3, 16);
    ParityOfSpike(10, 16);
    ParityOfSpike(15, 16);
    var two := Xor(Spike(16, 3), Spike(16, 10));
    ParityLinear(CRC16, Spike(16, 3), Spike(16, 10), 16);
    ParityLinear(CRC16, two, Spike(16, 15), 16);
  }

  lemma OneIsTheLowestBit()
    ensures OneIsLowest(CRC16)
  {
    TopBitsIs(ONE, 16);
    assert ONE == Zeros(15) + [true];
  }
}
