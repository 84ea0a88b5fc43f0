/** Which changes of a stream a linear register notices. An error pattern has a one wherever a bit was flipped; a
    changed stream is accepted exactly when the residue of the pattern is zero. */
module ErrorPatterns {
  import opened LinearRegister

  /** Flipped bits. */
  function Ones(e: seq<bool>): nat {
    if e == [] then 0 else (if e[0] then 1 else 0) + Ones(e[1..])
  }

  /** Exactly the positions in `s` are flipped. */
  ghost predicate FlipsExactly(e: seq<bool>, s: set<int>) {
    && (forall i :: i in s ==> 0 <= i < |e|)
    && (forall i :: 0 <= i < |e| ==> (e[i] <==> i in s))
  }

  /** All flips lie within `n` consecutive positions from `at`. */
  ghost predicate WithinBurst(e: seq<bool>, at: nat, n: nat) {
    at + n <= |e| && forall i :: 0 <= i < |e| && e[i] ==> at <= i < at + n
  }

  // ---------------------------------------------------------------------------
  // Odd weight
  // ---------------------------------------------------------------------------

  /** An odd number of ones among the `n` top bits. */
  function Parity<R(!new)>(m: Register<R>, c: R, n: nat): bool
    decreases n
  {
    if n == 0 then false else m.top(c) != Parity(m, m.left(c), n - 1)
  }

  /** The feedback polynomial has an even number of terms: the one shifted out and an odd number shifted in. */
  ghost predicate EvenPolynomial<R(!new)>(m: Register<R>) {
    Parity(m, m.hi, m.width) && Parity(m, m.shift(m.hi), m.width)
  }

  lemma {:induction false} ParityLinear<R(!new)>(m: Register<R>, a: R, b: R, n: nat)
    requires m.Lawful()
    ensures Parity(m, m.xor(a, b), n) == (Parity(m, a, n) != Parity(m, b, n))
    decreases n
  {
    if n > 0 {
      assert m.Linear(a, b);
      ParityLinear(m, m.left(a), m.left(b), n - 1);
    }
  }

  lemma {:induction false} ParitySnoc<R(!new)>(m: Register<R>, c: R, n: nat)
    ensures Parity(m, c, n + 1) == (Parity(m, c, n) != m.top(m.LeftBy(c, n)))
    decreases n
  {
    if n > 0 {
      ParitySnoc(m, m.left(c), n - 1);
    } else {
      assert !Parity(m, m.left(c), 0);
    }
  }

  lemma ParityOfShift<R(!new)>(m: Register<R>, c: R)
    requires m.Lawful() && EvenPolynomial(m)
    ensures Parity(m, m.shift(c), m.width) == Parity(m, c, m.width)
  {
    assert m.Steps(c);
    ParitySnoc(m, c, m.width);
    ParityLinear(m, m.left(c), m.shift(m.hi), m.width);
  }

  lemma {:induction false} ParityOfResidue<R(!new)>(m: Register<R>, r: R, e: seq<bool>)
    requires m.Lawful() && EvenPolynomial(m)
    ensures Parity(m, m.Residue(r, e), m.width) == (Parity(m, r, m.width) != (Ones(e) % 2 == 1))
    decreases |e|
  {
    if e != [] {
      ParityLinear(m, r, m.hi, m.width);
      ParityOfShift(m, if e[0] then m.xor(r, m.hi) else r);
      ParityOfResidue(m, m.Feed(r, e[0]), e[1..]);
    }
  }

  lemma OddWeightDetected<R(!new)>(m: Register<R>, e: seq<bool>)
    requires m.Lawful() && EvenPolynomial(m) && Ones(e) % 2 == 1
    ensures m.Residue(m.zero, e) != m.zero
  {
    ParityOfResidue(m, m.zero, e);
  }

  // ---------------------------------------------------------------------------
  // Single and double flips
  // ---------------------------------------------------------------------------

  lemma {:induction false} NoFlips<R(!new)>(m: Register<R>, r: R, e: seq<bool>)
    requires forall i :: 0 <= i < |e| ==> !e[i]
    ensures m.Residue(r, e) == m.Pow(|e|, r)
    decreases |e|
  {
    if e != [] {
      NoFlips(m, m.shift(r), e[1..]);
      m.PowAdd(|e| - 1, 1, r);
      assert m.Pow(1, r) == m.shift(m.Pow(0, r));
    }
  }

  lemma {:induction false} OneFlip<R(!new)>(m: Register<R>, e: seq<bool>, i: nat)
    requires m.Lawful() && FlipsExactly(e, {i})
    ensures m.Residue(m.zero, e) == m.Pow(|e| - i, m.hi)
    decreases |e|
  {
    if i == 0 {
      m.XorZero(m.hi, m.zero);
      NoFlips(m, m.shift(m.hi), e[1..]);
      m.PowAdd(|e| - 1, 1, m.hi);
      assert m.Pow(1, m.hi) == m.shift(m.Pow(0, m.hi));
    } else {
      m.PowZero(1, m.zero);
      assert m.Pow(1, m.zero) == m.shift(m.Pow(0, m.zero));
      OneFlip(m, e[1..], i - 1);
    }
  }

  function Spike(n: nat, i: nat): seq<bool> { seq(n, k => k == i) }

  lemma TwoSpikes(e: seq<bool>, i: nat, j: nat)
    requires i < j && FlipsExactly(e, {i, j})
    ensures e == XorBits(Spike(|e|, i), Spike(|e|, j))
    ensures FlipsExactly(Spike(|e|, i), {i}) && FlipsExactly(Spike(|e|, j), {j})
  {
  }

  /** Two flips cancel exactly when their distance is a period of the register. */
  lemma TwoFlips<R(!new)>(m: Register<R>, e: seq<bool>, i: nat, j: nat)
    requires m.Lawful() && i < j && FlipsExactly(e, {i, j})
    ensures m.Residue(m.zero, e) == m.zero <==> m.Pow(j - i, m.hi) == m.hi
  {
    var n := |e|;
    TwoSpikes(e, i, j);
    assert j in {i, j};
    var a, b := m.Pow(n - i, m.hi), m.Pow(n - j, m.hi);
    assert m.Residue(m.zero, e) == m.xor(a, b) by {
      m.XorZero(m.zero, m.zero);
      m.ResidueLinear(m.zero, m.zero, Spike(n, i), Spike(n, j));
      OneFlip(m, Spike(n, i), i);
      OneFlip(m, Spike(n, j), j);
    }
    m.XorZero(a, b);
    m.PowAdd(n - j, j - i, m.hi);
    if a == b {
      m.PowInjective(n - j, m.Pow(j - i, m.hi), m.hi);
    }
  }

  lemma {:induction false} PositionsOfTwo(e: seq<bool>) returns (i: nat, j: nat)
    requires Ones(e) == 2
    ensures i < j < |e| && FlipsExactly(e, {i, j})
    decreases |e|
  {
    if e[0] {
      i := 0;
      var k := PositionOfOne(e[1..]);
      j := k + 1;
    } else {
      var k, l := PositionsOfTwo(e[1..]);
      i, j := k + 1, l + 1;
    }
    forall k | 0 <= k < |e| ensures e[k] <==> k in {i, j} {
      if k > 0 { assert e[1..][k - 1] == e[k]; }
    }
  }

  lemma {:induction false} PositionOfOne(e: seq<bool>) returns (i: nat)
    requires Ones(e) == 1
    ensures i < |e| && FlipsExactly(e, {i})
    decreases |e|
  {
    if e[0] {
      i := 0;
      NoOnes(e[1..]);
    } else {
      var k := PositionOfOne(e[1..]);
      i := k + 1;
    }
    forall k | 0 <= k < |e| ensures e[k] <==> k in {i} {
      if k > 0 { assert e[1..][k - 1] == e[k]; }
    }
  }

  lemma {:induction false} NoOnes(e: seq<bool>)
    requires Ones(e) == 0
    ensures forall i :: 0 <= i < |e| ==> !e[i]
    decreases |e|
  {
    if e != [] {
      NoOnes(e[1..]);
      forall i | 0 <= i < |e| ensures !e[i] { if i > 0 { assert e[1..][i - 1] == e[i]; } }
    }
  }

  // ---------------------------------------------------------------------------
  // Bursts
  // ---------------------------------------------------------------------------

  /** The word whose lowest bits are `w`. */
  function WordOf<R(!new)>(m: Register<R>, w: seq<bool>): R {
    if w == [] then m.zero
    else
      var c := m.left(WordOf(m, w[..|w| - 1]));
      if w[|w| - 1] then m.xor(c, m.one) else c
  }

  /** `one` is the lowest bit of the register. */
  ghost predicate OneIsLowest<R(!new)>(m: Register<R>) {
    m.width > 0 && m.TopBits(m.one, m.width) == Zeros(m.width - 1) + [true]
  }

  function Zeros(n: nat): seq<bool> { seq(n, _ => false) }

  lemma {:induction false} TopBitsLength<R(!new)>(m: Register<R>, c: R, n: nat)
    ensures |m.TopBits(c, n)| == n
    decreases n
  {
    if n > 0 { TopBitsLength(m, m.left(c), n - 1); }
  }

  lemma {:induction false} TopBitsXor<R(!new)>(m: Register<R>, a: R, b: R, n: nat)
    requires m.Lawful()
    ensures |m.TopBits(a, n)| == |m.TopBits(b, n)| == n
    ensures m.TopBits(m.xor(a, b), n) == XorBits(m.TopBits(a, n), m.TopBits(b, n))
    decreases n
  {
    TopBitsLength(m, a, n);
    TopBitsLength(m, b, n);
    if n > 0 {
      assert m.Linear(a, b);
      TopBitsXor(m, m.left(a), m.left(b), n - 1);
    }
  }

  lemma {:induction false} TopBitsSnoc<R(!new)>(m: Register<R>, c: R, n: nat)
    ensures m.TopBits(c, n + 1) == m.TopBits(c, n) + [m.top(m.LeftBy(c, n))]
    decreases n
  {
    if n == 0 {
      assert m.TopBits(m.left(c), 0) == [];
    } else {
      TopBitsSnoc(m, m.left(c), n - 1);
    }
  }

  lemma {:induction false} TopBitsOfZero<R(!new)>(m: Register<R>, n: nat)
    requires m.Lawful()
    ensures m.TopBits(m.zero, n) == Zeros(n)
  {
    if n > 0 {
      TopBitsOfZero(m, n - 1);
      m.XorZero(m.zero, m.zero);
      assert m.Linear(m.zero, m.zero);
      m.XorZero(m.left(m.zero), m.zero);
    }
  }

  lemma LastBitSet(n: nat, w: seq<bool>)
    ensures XorBits(Zeros(n) + w + [false], Zeros(n + |w|) + [true]) == Zeros(n) + (w + [true])
  {
  }

  lemma {:induction false} WordOfBits<R(!new)>(m: Register<R>, w: seq<bool>)
    requires m.Lawful() && OneIsLowest(m) && |w| <= m.width
    ensures m.TopBits(WordOf(m, w), m.width) == Zeros(m.width - |w|) + w
  {
    if w == [] {
      TopBitsOfZero(m, m.width);
      assert Zeros(m.width) + [] == Zeros(m.width);
    } else {
      var w0, n := w[..|w| - 1], m.width - |w|;
      var c := WordOf(m, w0);
      WordOfBits(m, w0);
      TopBitsSnoc(m, c, m.width);
      assert m.Steps(c);
      assert m.TopBits(m.left(c), m.width) == (Zeros(n + 1) + w0 + [false])[1..];
      assert m.TopBits(m.left(c), m.width) == Zeros(n) + w0 + [false];
      if w[|w| - 1] {
        TopBitsXor(m, m.left(c), m.one, m.width);
        LastBitSet(n, w0);
        assert w0 + [true] == w;
      } else {
        assert Zeros(n) + w0 + [false] == Zeros(n) + w;
      }
    }
  }

  lemma BurstDetected<R(!new)>(m: Register<R>, e: seq<bool>, at: nat)
    requires m.Lawful() && OneIsLowest(m)
    requires WithinBurst(e, at, m.width) && Ones(e) > 0
    ensures m.Residue(m.zero, e) != m.zero
  {
    var end := at + m.width;
    var before, burst, after := e[..at], e[at..end], e[end..];
    assert e == before + (burst + after);
    m.ResidueConcat(m.zero, before, burst + after);
    NoFlips(m, m.zero, before);
    m.PowZero(at, m.zero);
    m.ResidueConcat(m.zero, burst, after);
    var c := WordOf(m, burst);
    WordOfBits(m, burst);
    assert m.TopBits(c, m.width) == burst;
    m.WordResidue(m.zero, c);
    NoFlips(m, m.Residue(m.zero, burst), after);
    m.PowZero(|after|, m.Residue(m.zero, burst));
    if c == m.zero {
      TopBitsOfZero(m, m.width);
      forall i | 0 <= i < |e| ensures !e[i] {
        if at <= i < end { assert e[i] == burst[i - at] == Zeros(m.width)[i - at]; }
      }
      NoFlipsNoOnes(e);
    }
  }

  lemma {:induction false} NoFlipsNoOnes(e: seq<bool>)
    requires forall i :: 0 <= i < |e| ==> !e[i]
    ensures Ones(e) == 0
    decreases |e|
  {
    if e != [] { NoFlipsNoOnes(e[1..]); }
  }

  // ---------------------------------------------------------------------------
  // The period
  // ---------------------------------------------------------------------------

  ghost predicate Period<R(!new)>(m: Register<R>, d: nat) { m.Pow(d, m.one) == m.one }

  lemma {:induction false} PeriodMultiple<R(!new)>(m: Register<R>, d: nat, k: nat)
    requires Period(m, d)
    ensures Period(m, d * k)
  {
    if k > 0 {
      PeriodMultiple(m, d, k - 1);
      m.PowAdd(d, d * (k - 1), m.one);
      assert d * k == d + d * (k - 1);
    }
  }

  lemma PeriodDifference<R(!new)>(m: Register<R>, c: nat, d: nat)
    requires m.Lawful() && Period(m, c + d) && Period(m, d)
    ensures Period(m, c)
  {
    m.PowAdd(c, d, m.one);
  }

  /** Euclid's algorithm on periods that are multiples of `q`. */
  lemma {:induction false} PeriodGcd<R(!new)>(m: Register<R>, q: nat, a: nat, b: nat) returns (g: nat)
    requires m.Lawful() && a + b > 0 && Period(m, q * a) && Period(m, q * b)
    ensures g > 0 && Period(m, q * g)
    ensures exists u: nat, v: nat :: a == g * u && b == g * v
    decreases a + b, b
  {
    if a == 0 {
      g := b;
      assert a == g * 0 && b == g * 1;
    } else if b == 0 {
      g := a;
      assert a == g * 1 && b == g * 0;
    } else if a >= b {
      assert q * a == q * (a - b) + q * b;
      PeriodDifference(m, q * (a - b), q * b);
      g := PeriodGcd(m, q, a - b, b);
      var u: nat, v: nat :| a - b == g * u && b == g * v;
      assert a == g * (u + v);
    } else {
      assert q * b == q * (b - a) + q * a;
      PeriodDifference(m, q * (b - a), q * a);
      g := PeriodGcd(m, q, a, b - a);
      var u: nat, v: nat :| a == g * u && b - a == g * v;
      assert b == g * (u + v);
    }
  }

  ghost predicate Prime(p: nat) { p >= 2 && forall g, u :: g >= 1 && p == g * u ==> g == 1 || g == p }

  /** If `q * p` is a period and `q` is not, every period is a multiple of the prime `p`. */
  lemma PrimeDividesPeriod<R(!new)>(m: Register<R>, q: nat, p: nat, d: nat) returns (u: nat)
    requires m.Lawful() && Prime(p)
    requires Period(m, q * p) && !Period(m, q) && Period(m, d)
    ensures d == p * u
  {
    PeriodMultiple(m, d, q);
    assert q * d == d * q;
    var g := PeriodGcd(m, q, d, p);
    var t: nat, v: nat :| d == g * t && p == g * v;
    assert g == 1 || g == p;
    assert q * 1 == q;
    u := t;
  }

  // ---------------------------------------------------------------------------
  // Squaring
  // ---------------------------------------------------------------------------

  /** Spread the `n` top bits of `a` over the even powers: the square of a polynomial over GF(2). */
  function Square<R(!new)>(m: Register<R>, a: R, n: nat): R
    decreases n
  {
    if n == 0 then m.zero
    else
      var rest := Square(m, m.left(a), n - 1);
      if m.top(a) then m.xor(m.Pow(2 * (n - 1), m.one), rest) else rest
  }

  /** Squaring agrees with the reduction by the feedback polynomial. */
  ghost predicate Frobenius<R(!new)>(m: Register<R>) {
    && Square(m, m.shift(m.hi), m.width) == m.Pow(2 * m.width, m.one)
    && Square(m, m.one, m.width) == m.one
  }

  lemma {:induction false} SquareLinear<R(!new)>(m: Register<R>, a: R, b: R, n: nat)
    requires m.Lawful()
    ensures Square(m, m.xor(a, b), n) == m.xor(Square(m, a, n), Square(m, b, n))
    decreases n
  {
    if n == 0 {
      m.XorZero(m.zero, m.zero);
    } else {
      var p, s, t := m.Pow(2 * (n - 1), m.one), Square(m, m.left(a), n - 1), Square(m, m.left(b), n - 1);
      assert m.Linear(a, b);
      SquareLinear(m, m.left(a), m.left(b), n - 1);
      if m.top(a) && m.top(b) {
        m.XorPairs(p, s, p, t);
        m.XorZero(p, p);
        m.XorZero(m.xor(s, t), m.zero);
      } else if m.top(a) {
        assert m.Associates(p, s, t);
      } else if m.top(b) {
        assert m.Associates(s, p, t) && m.Commutes(s, p) && m.Associates(p, s, t);
      }
    }
  }

  lemma {:induction false} SquareSnoc<R(!new)>(m: Register<R>, a: R, n: nat)
    requires m.Lawful()
    ensures var twice := m.Pow(2, Square(m, a, n));
            Square(m, a, n + 1) == if m.top(m.LeftBy(a, n)) then m.xor(twice, m.one) else twice
    decreases n
  {
    if n == 0 {
      m.PowZero(2, m.zero);
      m.XorZero(m.one, m.zero);
      assert Square(m, m.left(a), 0) == m.zero && m.Pow(2 * 0, m.one) == m.one;
    } else {
      var s, p := Square(m, m.left(a), n - 1), m.Pow(2 * (n - 1), m.one);
      SquareSnoc(m, m.left(a), n - 1);
      m.PowLinear(2, p, s);
      m.PowAdd(2, 2 * (n - 1), m.one);
      assert m.Associates(m.Pow(2 * n, m.one), m.Pow(2, s), m.one);
    }
  }

  lemma SquareOfShift<R(!new)>(m: Register<R>, a: R)
    requires m.Lawful() && Frobenius(m)
    ensures Square(m, m.shift(a), m.width) == m.Pow(2, Square(m, a, m.width))
  {
    SquareSnoc(m, a, m.width);
    assert m.Steps(a);
    SquareLinear(m, m.left(a), m.shift(m.hi), m.width);
    assert m.Commutes(Square(m, m.left(a), m.width), m.Pow(2 * m.width, m.one));
  }

  /** Squaring doubles the exponent. */
  lemma {:induction false} Doubling<R(!new)>(m: Register<R>, n: nat)
    requires m.Lawful() && Frobenius(m)
    ensures m.Pow(2 * n, m.one) == Square(m, m.Pow(n, m.one), m.width)
  {
    if n > 0 {
      Doubling(m, n - 1);
      SquareOfShift(m, m.Pow(n - 1, m.one));
      m.PowAdd(2, 2 * (n - 1), m.one);
    }
  }

  /** Starting from the top bit has the same periods as starting from the lowest. */
  lemma PeriodOfHi<R(!new)>(m: Register<R>, d: nat)
    requires m.Lawful() && m.width > 0 && m.hi == m.Pow(m.width - 1, m.one)
    ensures m.Pow(d, m.hi) == m.hi <==> Period(m, d)
  {
    m.PowAdd(d, m.width - 1, m.one);
    m.PowAdd(m.width - 1, d, m.one);
    if m.Pow(d, m.hi) == m.hi {
      m.PowInjective(m.width - 1, m.Pow(d, m.one), m.one);
    }
  }
}
