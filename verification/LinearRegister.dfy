/** Linear feedback shift registers, whatever their width: the algebra behind the CRC's error detection.

    The register type is abstract and the laws are named predicates, so that proofs say which law they use where. */
module LinearRegister {

  /** `shift` is one step with no input, `left` the plain shift it consists of, `top` the bit that falls out, `hi` the
      register whose only bit is the top one, `one` the register whose only bit is the lowest. */
  datatype Register<!R(!new, ==)> = Register(
    width: nat, zero: R, one: R, hi: R, xor: (R, R) -> R, shift: R -> R, left: R -> R, top: R -> bool)
  {
    // -------------------------------------------------------------------------
    // Laws
    // -------------------------------------------------------------------------

    predicate Associates(a: R, b: R, c: R) { xor(xor(a, b), c) == xor(a, xor(b, c)) }

    predicate Commutes(a: R, b: R) { xor(a, b) == xor(b, a) }

    predicate Cancels(a: R) { xor(a, zero) == a && xor(a, a) == zero }

    predicate Linear(a: R, b: R) {
      && shift(xor(a, b)) == xor(shift(a), shift(b))
      && left(xor(a, b)) == xor(left(a), left(b))
      && top(xor(a, b)) == (top(a) != top(b))
    }

    predicate Steps(a: R) {
      && shift(a) == (if top(a) then xor(left(a), shift(hi)) else left(a))
      && (shift(a) == zero ==> a == zero)
      && LeftBy(a, width) == zero
    }

    ghost predicate Lawful() {
      && (forall a, b, c :: Associates(a, b, c))
      && (forall a, b :: Commutes(a, b))
      && (forall a :: Cancels(a))
      && (forall a, b :: Linear(a, b))
      && (forall a :: Steps(a))
      && !top(zero)
    }

    // -------------------------------------------------------------------------
    // Streams
    // -------------------------------------------------------------------------

    function Pow(n: nat, r: R): R { if n == 0 then r else shift(Pow(n - 1, r)) }

    function LeftBy(c: R, n: nat): R
      decreases n
    {
      if n == 0 then c else LeftBy(left(c), n - 1)
    }

    /** One bit of the stream goes in at the top. */
    function Feed(r: R, bit: bool): R { if bit then shift(xor(r, hi)) else shift(r) }

    /** The register after the bits of a stream were fed in one at a time. */
    function Residue(r: R, bits: seq<bool>): R
      decreases |bits|
    {
      if bits == [] then r else Residue(Feed(r, bits[0]), bits[1..])
    }

    /** The `n` most significant bits of `c`. */
    function TopBits(c: R, n: nat): seq<bool>
      decreases n
    {
      if n == 0 then [] else [top(c)] + TopBits(left(c), n - 1)
    }

    // -------------------------------------------------------------------------
    // Consequences of the laws
    // -------------------------------------------------------------------------

    lemma XorZero(a: R, b: R)
      requires Lawful()
      ensures xor(a, zero) == a && xor(zero, a) == a && xor(a, a) == zero
      ensures xor(a, b) == zero <==> a == b
    {
      assert Cancels(a) && Cancels(b) && Commutes(a, zero) && Commutes(b, zero);
      assert Associates(a, b, b);
    }

    /** Xor of pairs. */
    lemma XorPairs(a: R, b: R, c: R, d: R)
      requires Lawful()
      ensures xor(xor(a, b), xor(c, d)) == xor(xor(a, c), xor(b, d))
    {
      assert Associates(a, b, xor(c, d)) && Associates(b, c, d) && Commutes(b, c);
      assert Associates(c, b, d) && Associates(a, c, xor(b, d));
    }

    lemma FeedLinear(r: R, s: R, x: bool, y: bool)
      requires Lawful()
      ensures Feed(xor(r, s), x != y) == xor(Feed(r, x), Feed(s, y))
    {
      if x && y {
        XorPairs(r, hi, s, hi);
        assert Linear(xor(r, hi), xor(s, hi));
        XorZero(hi, hi);
        XorZero(xor(r, s), zero);
      } else if x {
        assert Associates(r, s, hi) && Commutes(s, hi) && Associates(r, hi, s);
        assert Linear(xor(r, hi), s);
      } else if y {
        assert Associates(r, s, hi);
        assert Linear(r, xor(s, hi));
      } else {
        assert Linear(r, s);
      }
    }

    lemma {:induction false} PowAdd(m: nat, n: nat, r: R)
      ensures Pow(m + n, r) == Pow(m, Pow(n, r))
    {
      if m > 0 { PowAdd(m - 1, n, r); }
    }

    lemma {:induction false} PowLinear(n: nat, a: R, b: R)
      requires Lawful()
      ensures Pow(n, xor(a, b)) == xor(Pow(n, a), Pow(n, b))
    {
      if n > 0 {
        PowLinear(n - 1, a, b);
        assert Linear(Pow(n - 1, a), Pow(n - 1, b));
      }
    }

    lemma {:induction false} PowZero(n: nat, r: R)
      requires Lawful()
      ensures Pow(n, r) == zero <==> r == zero
    {
      if n > 0 {
        PowZero(n - 1, r);
        assert Steps(zero) && Steps(Pow(n - 1, r));
        assert shift(zero) == zero by {
          XorZero(zero, zero);
          assert Linear(zero, zero);
          XorZero(shift(zero), zero);
        }
      }
    }

    lemma {:induction false} PowInjective(n: nat, a: R, b: R)
      requires Lawful() && Pow(n, a) == Pow(n, b)
      ensures a == b
    {
      PowLinear(n, a, b);
      XorZero(Pow(n, a), Pow(n, b));
      PowZero(n, xor(a, b));
      XorZero(a, b);
    }

    lemma {:induction false} ResidueConcat(r: R, a: seq<bool>, b: seq<bool>)
      ensures Residue(r, a + b) == Residue(Residue(r, a), b)
      decreases |a|
    {
      if a == [] {
        assert a + b == b;
      } else {
        assert (a + b)[1..] == a[1..] + b;
        ResidueConcat(Feed(r, a[0]), a[1..], b);
      }
    }

    /** Changing a stream by an error pattern changes the residue by the residue of the pattern. */
    lemma {:induction false} ResidueLinear(r: R, s: R, a: seq<bool>, b: seq<bool>)
      requires Lawful() && |a| == |b|
      ensures Residue(xor(r, s), XorBits(a, b)) == xor(Residue(r, a), Residue(s, b))
      decreases |a|
    {
      if a != [] {
        FeedLinear(r, s, a[0], b[0]);
        assert XorBits(a, b)[1..] == XorBits(a[1..], b[1..]);
        ResidueLinear(Feed(r, a[0]), Feed(s, b[0]), a[1..], b[1..]);
      }
    }

    // -------------------------------------------------------------------------
    // Whole words
    // -------------------------------------------------------------------------

    /** Stepping `r ^ c` feeds the top bit of `c` and moves up the rest of it. */
    lemma ShiftFeeds(r: R, c: R)
      requires Lawful()
      ensures shift(xor(r, c)) == xor(Feed(r, top(c)), left(c))
    {
      assert Linear(r, c) && Steps(c);
      if top(c) {
        assert Linear(r, hi) && Commutes(left(c), shift(hi)) && Associates(shift(r), shift(hi), left(c));
      }
    }

    /** Xoring a word in and then shifting is feeding its bits, up to what is left of the word. */
    lemma {:induction false} WordIsBits(r: R, c: R, n: nat)
      requires Lawful()
      ensures Pow(n, xor(r, c)) == xor(Residue(r, TopBits(c, n)), LeftBy(c, n))
      decreases n
    {
      if n > 0 {
        ShiftFeeds(r, c);
        PowAdd(n - 1, 1, xor(r, c));
        assert Pow(1, xor(r, c)) == shift(Pow(0, xor(r, c)));
        WordIsBits(Feed(r, top(c)), left(c), n - 1);
        assert TopBits(c, n)[1..] == TopBits(left(c), n - 1);
      }
    }

    /** A whole word of the stream leaves the register zero exactly when it equals the register. */
    lemma WordResidue(r: R, c: R)
      requires Lawful()
      ensures Residue(r, TopBits(c, width)) == Pow(width, xor(r, c))
      ensures Residue(r, TopBits(c, width)) == zero <==> r == c
    {
      WordIsBits(r, c, width);
      assert Steps(c);
      XorZero(Residue(r, TopBits(c, width)), zero);
      PowZero(width, xor(r, c));
      XorZero(r, c);
    }
  }

  function XorBits(a: seq<bool>, b: seq<bool>): (c: seq<bool>)
    requires |a| == |b|
    ensures |c| == |a| && forall i :: 0 <= i < |c| ==> c[i] == (a[i] != b[i])
  {
    seq(|a|, i requires 0 <= i < |a| => a[i] != b[i])
  }
}
