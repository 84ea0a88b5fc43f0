/** Natural numbers bit by bit, and what that means for division by powers of two. */
module Bits {
  function Pow2(n: nat): (p: nat)
    ensures p >= 1
    decreases n
  {
    if n == 0 then 1 else 2 * Pow2(n - 1)
  }

  /** n shifted right by k. */
  function Shr(n: nat, k: nat): nat
    decreases k
  {
    if k == 0 then n else Shr(n, k - 1) / 2
  }

  /** Bit k, counted from the least significant. */
  function Bit(n: nat, k: nat): nat { Shr(n, k) % 2 }

  /** The lowest k bits. */
  function Low(n: nat, k: nat): nat
    decreases k
  {
    if k == 0 then 0 else Low(n, k - 1) + if Bit(n, k - 1) == 1 then Pow2(k - 1) else 0
  }

  /** n shifted left by k. */
  function Up(n: nat, k: nat): nat
    decreases k
  {
    if k == 0 then n else 2 * Up(n, k - 1)
  }

  /** `n |= 1 << k`. */
  function OrBit(n: nat, k: nat): nat { if Bit(n, k) == 1 then n else n + Pow2(k) }

  /** `n & m`. */
  function And(n: nat, m: nat): (a: nat)
    ensures a <= m
    decreases m
  {
    if m == 0 then 0 else 2 * And(n / 2, m / 2) + (n % 2) * (m % 2)
  }

  lemma {:induction false} PowMonotone(m: nat, n: nat)
    requires m <= n
    ensures Pow2(m) <= Pow2(n)
    decreases n
  {
    if m < n {
      PowMonotone(m, n - 1);
    }
  }

  lemma {:induction false} PowAdd(m: nat, n: nat)
    ensures Pow2(m + n) == Pow2(m) * Pow2(n)
    decreases m
  {
    if m > 0 {
      PowAdd(m - 1, n);
    }
  }

  lemma {:induction false} ShrFirst(n: nat, k: nat)
    requires k > 0
    ensures Shr(n, k) == Shr(n / 2, k - 1)
    decreases k
  {
    if k > 1 {
      ShrFirst(n, k - 1);
    }
  }

  lemma {:induction false} ShrTwice(n: nat, j: nat, k: nat)
    ensures Shr(Shr(n, j), k) == Shr(n, j + k)
    decreases k
  {
    if k > 0 {
      ShrTwice(n, j, k - 1);
    }
  }

  lemma {:induction false} ShrSmall(n: nat, k: nat)
    requires n < Pow2(k)
    ensures Shr(n, k) == 0
    decreases k
  {
    if k > 0 {
      ShrFirst(n, k);
      ShrSmall(n / 2, k - 1);
    }
  }

  lemma {:induction false} LowIsSmall(n: nat, k: nat)
    ensures Low(n, k) < Pow2(k)
    decreases k
  {
    if k > 0 {
      LowIsSmall(n, k - 1);
    }
  }

  lemma {:induction false} LowGrows(n: nat, i: nat, k: nat)
    requires i <= k
    ensures Low(n, i) <= Low(n, k)
    decreases k
  {
    if i < k {
      LowGrows(n, i, k - 1);
    }
  }

  /** The low bits, read from the bottom. */
  lemma {:induction false} LowFirst(n: nat, k: nat)
    requires k > 0
    ensures Low(n, k) == 2 * Low(n / 2, k - 1) + n % 2
    decreases k
  {
    if k > 1 {
      LowFirst(n, k - 1);
      ShrFirst(n, k - 1);
    }
  }

  lemma {:induction false} UpFirst(n: nat, k: nat)
    ensures Up(2 * n, k) == Up(n, k + 1)
    decreases k
  {
    if k > 0 {
      UpFirst(n, k - 1);
    }
  }

  lemma {:induction false} UpPlusOne(n: nat, k: nat)
    ensures Up(n + 1, k) == Up(n, k) + Pow2(k)
    decreases k
  {
    if k > 0 {
      UpPlusOne(n, k - 1);
    }
  }

  lemma {:induction false} UpBound(n: nat, k: nat, m: nat)
    ensures Up(n, k) < Pow2(m + k) <==> n < Pow2(m)
    decreases k
  {
    if k > 0 {
      UpBound(n, k - 1, m);
    }
  }

  /** A number split at bit e. */
  lemma {:induction false} SplitHigh(b: nat, high: nat, e: nat, k: nat)
    requires b < Pow2(e)
    ensures Shr(b + Up(high, e), e + k) == Shr(high, k)
    decreases e
  {
    if e > 0 {
      ShrFirst(b + Up(high, e), e + k);
      assert (b + Up(high, e)) / 2 == b / 2 + Up(high, e - 1);
      SplitHigh(b / 2, high, e - 1, k);
    }
  }

  lemma {:induction false} SplitLow(b: nat, high: nat, e: nat, k: nat)
    requires k < e
    ensures Bit(b + Up(high, e), k) == Bit(b, k)
    decreases k
  {
    if k > 0 {
      ShrFirst(b + Up(high, e), k);
      ShrFirst(b, k);
      assert (b + Up(high, e)) / 2 == b / 2 + Up(high, e - 1);
      SplitLow(b / 2, high, e - 1, k - 1);
    }
  }

  /** Setting a bit above all that is there. */
  lemma OrAbove(n: nat, k: nat)
    requires n < Pow2(k)
    ensures OrBit(n, k) == n + Pow2(k)
  {
    ShrSmall(n, k);
  }

  /** Setting the highest of k + 1 clear low bits. */
  lemma OrBelow(n: nat, k: nat)
    ensures OrBit(Up(n, k + 1), k) == Up(2 * n + 1, k) && Up(n, k + 1) == Up(2 * n, k)
  {
    UpFirst(n, k);
    UpPlusOne(2 * n, k);
    SplitHigh(0, 2 * n, k, 0);
  }

  // ---------------------------------------------------------------------------
  // Division
  // ---------------------------------------------------------------------------

  lemma Quotient(a: nat, d: nat, q: nat, r: nat)
    requires r < d && a == d * q + r
    ensures a / d == q && a % d == r
  {
    var e, s := a / d, a % d;
    Between(d, e, s, q, r);
    Between(d, q, r, e, s);
  }

  lemma Between(d: nat, e: nat, s: nat, q: nat, r: nat)
    requires d * e + s == d * q + r && s < d
    ensures q <= e
  {
    if e + 1 <= q {
      TimesMonotone(d, e + 1, q);
    }
  }

  lemma TimesMonotone(d: nat, e: nat, q: nat)
    requires e <= q
    ensures d * e <= d * q
  {
  }

  lemma TwiceAndBit(p: nat, h: nat, b: nat)
    ensures p * (2 * h + b) == 2 * p * h + p * b
  {
  }

  lemma {:induction false} HighAndLow(n: nat, k: nat)
    ensures n == Pow2(k) * Shr(n, k) + Low(n, k)
    decreases k
  {
    if k > 0 {
      HighAndLow(n, k - 1);
      TwiceAndBit(Pow2(k - 1), Shr(n, k), Bit(n, k - 1));
    }
  }

  /** Shifting is dividing, masking is the remainder. */
  lemma ShiftIsDivision(n: nat, k: nat)
    ensures Shr(n, k) == n / Pow2(k) && Low(n, k) == n % Pow2(k)
  {
    HighAndLow(n, k);
    LowIsSmall(n, k);
    Quotient(n, Pow2(k), Shr(n, k), Low(n, k));
  }

  // ---------------------------------------------------------------------------
  // Masks
  // ---------------------------------------------------------------------------

  lemma AndHalves(n: nat, m: nat)
    ensures And(n, m) / 2 == And(n / 2, m / 2)
    ensures And(n, m) % 2 == 1 <==> n % 2 == 1 && m % 2 == 1
  {
    assert n % 2 == 0 || n % 2 == 1;
  }

  /** Bit k of a conjunction. */
  lemma {:induction false} AndBit(n: nat, m: nat, k: nat)
    ensures Bit(And(n, m), k) == 1 <==> Bit(n, k) == 1 && Bit(m, k) == 1
    decreases k
  {
    if m == 0 {
      ShrSmall(0, k);
    } else if k == 0 {
      AndHalves(n, m);
    } else {
      AndHalves(n, m);
      ShrFirst(And(n, m), k);
      ShrFirst(n, k);
      ShrFirst(m, k);
      AndBit(n / 2, m / 2, k - 1);
    }
  }

  /** A number below 2^k is its lowest k bits. */
  lemma {:induction false} SameBits(a: nat, b: nat, k: nat)
    requires a < Pow2(k) && b < Pow2(k) && forall i :: 0 <= i < k ==> Bit(a, i) == Bit(b, i)
    ensures a == b
    decreases k
  {
    if k > 0 {
      forall i | 0 <= i < k - 1 ensures Bit(a / 2, i) == Bit(b / 2, i) {
        ShrFirst(a, i + 1);
        ShrFirst(b, i + 1);
        assert Bit(a, i + 1) == Bit(b, i + 1);
      }
      SameBits(a / 2, b / 2, k - 1);
      assert Bit(a, 0) == Bit(b, 0);
    }
  }

  /** The binary digit with weight 2^k. */
  predicate HasBit(n: nat, k: nat) { n / Pow2(k) % 2 == 1 }

  lemma HasBitIs(n: nat, k: nat)
    ensures HasBit(n, k) <==> Bit(n, k) == 1
  {
    ShiftIsDivision(n, k);
  }

  lemma HalfLess(p: nat)
    requires p >= 1
    ensures (2 * p - 1) / 2 == p - 1
  {
  }

  lemma {:induction false} OnesBit(k: nat, i: nat)
    requires i < k
    ensures Bit(Pow2(k) - 1, i) == 1
    decreases k
  {
    if i > 0 {
      HalfLess(Pow2(k - 1));
      ShrFirst(Pow2(k) - 1, i);
      OnesBit(k - 1, i - 1);
    }
  }

  lemma AllOnes(k: nat, i: nat)
    requires i < k
    ensures HasBit(Pow2(k) - 1, i)
  {
    OnesBit(k, i);
    HasBitIs(Pow2(k) - 1, i);
  }

  lemma Pow32()
    ensures Pow2(32) == 0x1_0000_0000
  {
    assert Pow2(8) == 0x100;
    assert Pow2(16) == 0x1_0000;
    assert Pow2(24) == 0x100_0000;
  }

  lemma {:induction false} UpIsTimes(n: nat, k: nat)
    ensures Up(n, k) == Pow2(k) * n
    decreases k
  {
    if k > 0 {
      UpIsTimes(n, k - 1);
      Double(Pow2(k - 1), n);
    }
  }

  lemma Double(p: nat, n: nat)
    ensures 2 * (p * n) == 2 * p * n
  {
  }

  lemma LowBit(x: nat, length: nat, i: nat)
    ensures Bit(Low(x, length), i) == 1 <==> i < length && Bit(x, i) == 1
  {
    if i < length {
      HighAndLow(x, length);
      UpIsTimes(Shr(x, length), length);
      SplitLow(Low(x, length), Shr(x, length), length, i);
    } else {
      LowIsSmall(x, length);
      PowMonotone(length, i);
      ShrSmall(Low(x, length), i);
    }
  }

  /** A slice keeps the digits it covers and has none above. */
  lemma SliceBit(n: nat, low: nat, length: nat, i: nat)
    ensures HasBit(n / Pow2(low) % Pow2(length), i) <==> i < length && HasBit(n, low + i)
  {
    ShiftIsDivision(n, low);
    ShiftIsDivision(Shr(n, low), length);
    LowBit(Shr(n, low), length, i);
    ShrTwice(n, low, i);
    HasBitIs(Low(Shr(n, low), length), i);
    HasBitIs(n, low + i);
  }

  lemma {:induction false} HighestBit(n: nat) returns (i: nat)
    requires n > 0
    ensures HasBit(n, i) && n < Pow2(i + 1)
    decreases n
  {
    if n == 1 {
      i := 0;
    } else {
      var j := HighestBit(n / 2);
      i := j + 1;
      HasBitIs(n, i);
      HasBitIs(n / 2, j);
      ShrFirst(n, i);
    }
  }
}
