/** What is received of what was sent: some of it, in order. */
module Subsequences {

  predicate Subsequence<T(==)>(a: seq<T>, b: seq<T>)
    decreases |b|
  {
    a == [] ||
    (b != [] &&
     (Subsequence(a, b[..|b| - 1]) || (a[|a| - 1] == b[|b| - 1] && Subsequence(a[..|a| - 1], b[..|b| - 1]))))
  }

  lemma {:induction false} SubsequenceOfLonger<T>(a: seq<T>, b: seq<T>, x: T)
    requires Subsequence(a, b)
    ensures Subsequence(a, b + [x]) && Subsequence(a + [x], b + [x])
  {
    assert (b + [x])[..|b|] == b;
    assert (a + [x])[..|a|] == a;
  }

  lemma {:induction false} SubsequenceOfPrefix<T>(a: seq<T>, b: seq<T>, c: seq<T>)
    requires Subsequence(a, b)
    ensures Subsequence(a, b + c)
    decreases |c|
  {
    if c == [] {
      assert b + c == b;
    } else {
      var most := c[..|c| - 1];
      SubsequenceOfPrefix(a, b, most);
      SubsequenceOfLonger(a, b + most, c[|c| - 1]);
      assert b + c == b + most + [c[|c| - 1]];
    }
  }

  /** Taking one element out leaves a subsequence. */
  lemma {:induction false} WithoutOne<T>(a: seq<T>, i: nat, b: seq<T>)
    requires Subsequence(a, b) && i < |a|
    ensures Subsequence(a[..i] + a[i + 1..], b)
    decreases |b|
  {
    var c, d := b[..|b| - 1], a[..|a| - 1];
    assert b == c + [b[|b| - 1]];
    if Subsequence(a, c) {
      WithoutOne(a, i, c);
      SubsequenceOfLonger(a[..i] + a[i + 1..], c, b[|b| - 1]);
    } else if i == |a| - 1 {
      assert a[..i] + a[i + 1..] == d;
      SubsequenceOfLonger(d, c, b[|b| - 1]);
    } else {
      WithoutOne(d, i, c);
      assert a[..i] + a[i + 1..] == d[..i] + d[i + 1..] + [a[|a| - 1]];
      SubsequenceOfLonger(d[..i] + d[i + 1..], c, b[|b| - 1]);
    }
  }
}
