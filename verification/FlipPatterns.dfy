/** Every flip pattern comes from a frame: the failures of the check have inputs. */
module FlipPatterns {
  import opened LinearRegister
  import opened ErrorPatterns
  import opened CrcRegister
  import opened Crc16
  import opened CrcPeriod
  import opened Safety
  import opened Detection

  // ---------------------------------------------------------------------------
  // Bits determine bytes
  // ---------------------------------------------------------------------------

  lemma HighByteOf(lo: bv8, a: bv8, b: bv8)
    requires FromLe16(lo, a) == FromLe16(lo, b)
    ensures a == b
  {
  }

  lemma BitsInjective(a: bv8, b: bv8)
    requires Bits(a) == Bits(b)
    ensures a == b
  {
    WordBits(0, a);
    WordBits(0, b);
    OfInjective(FromLe16(0, a), FromLe16(0, b));
    HighByteOf(0, a, b);
  }

  lemma {:induction false} StreamInjective(a: seq<bv8>, b: seq<bv8>)
    requires StreamBits(a) == StreamBits(b)
    ensures a == b
    decreases |a|
  {
    StreamLength(a);
    StreamLength(b);
    if a != [] {
      var n := |a| - 1;
      StreamLength(a[..n]);
      StreamLength(b[..n]);
      var w := StreamBits(a);
      assert w[..8 * n] == StreamBits(a[..n]) && w[..8 * n] == StreamBits(b[..n]);
      assert w[8 * n..] == Bits(a[n]) && w[8 * n..] == Bits(b[n]);
      StreamInjective(a[..n], b[..n]);
      BitsInjective(a[n], b[n]);
    }
  }

  lemma MaskBits(k: nat, i: nat)
    requires k < 16 && i < 16
    ensures Bit(Mask(k), Mask(i)) <==> i == k
  {
  }

  lemma OfMask(k: nat)
    requires k < 16
    ensures Of(Mask(k)) == Spike(16, k)
  {
    forall i | 0 <= i < 16 ensures Of(Mask(k))[i] == Spike(16, k)[i] {
      MaskBits(k, i);
    }
  }

  lemma AddSpike(w: Word, k: nat)
    requires k < 16 && w[k]
    ensures Xor(w[..k] + Zeros(16 - k), Spike(16, k)) == w[..k + 1] + Zeros(15 - k)
  {
  }

  /** Every word is the bits of a register value. */
  lemma {:induction false} WordExists(w: Word, k: nat) returns (c: bv16)
    requires k <= 16
    ensures Of(c) == w[..k] + Zeros(16 - k)
    decreases k
  {
    if k == 0 {
      c := 0;
      OfOne();
    } else {
      c := WordExists(w, k - 1);
      if w[k - 1] {
        OfXor(c, Mask(k - 1));
        OfMask(k - 1);
        AddSpike(w, k - 1);
        c := c ^ Mask(k - 1);
      } else {
        assert w[..k] + Zeros(16 - k) == w[..k - 1] + Zeros(17 - k);
      }
    }
  }

  lemma ByteExists(w: seq<bool>) returns (b: bv8)
    requires |w| == 8
    ensures Bits(b) == w
  {
    var word: Word := w + Zeros(8);
    var c := WordExists(word, 16);
    Le16RoundTrip(c);
    b := ToLe16(c)[1];
    WordBits(ToLe16(c)[0], b);
    assert Of(c) == word;
    assert Of(c)[..8] == Bits(b);
  }

  lemma {:induction false} StreamExists(e: seq<bool>, n: nat) returns (data: seq<bv8>)
    requires |e| == 8 * n
    ensures |data| == n && StreamBits(data) == e
    decreases n
  {
    if n == 0 {
      data := [];
    } else {
      var most := StreamExists(e[..8 * (n - 1)], n - 1);
      var last := ByteExists(e[8 * (n - 1)..]);
      data := most + [last];
      assert data[..n - 1] == most;
    }
  }

  lemma XorTwice(a: seq<bool>, b: seq<bool>)
    requires |a| == |b|
    ensures XorBits(a, XorBits(a, b)) == b
  {
  }

  /** Any flips of the code word, and none elsewhere, are those of some received frame. */
  lemma PatternExists(sent: seq<bv8>, e: seq<bool>) returns (got: seq<bv8>)
    requires |sent| >= HEADER_SIZE && |e| == 8 * (|sent| - 4)
    ensures |got| == |sent| && got[..4] == sent[..4] && Flips(sent, got) == e
  {
    var n := |sent| - 4;
    CodeWordLength(sent);
    var d := StreamExists(XorBits(CodeWord(sent), e), n);
    got := sent[..4] + d[..4] + [d[n - 1], d[n - 2]] + d[4..n - 2];
    assert CodeBytes(got) == d[..4] + d[4..n - 2] + [d[n - 2], d[n - 1]] == d;
    XorTwice(CodeWord(sent), e);
  }

  // ---------------------------------------------------------------------------
  // Main results
  // ---------------------------------------------------------------------------

  function Pattern(n: nat, s: set<nat>): seq<bool> { seq(n, i requires 0 <= i < n => i in s) }

  /** Four flips in the pattern of the polynomial: for every protected frame and every start there is a changed
      frame that passes. */
  lemma FourFlipsAccepted(cfg: Config, sent: seq<bv8>, i: nat) returns (got: seq<bv8>)
    requires |sent| >= HEADER_SIZE && CrcAccepts(cfg, sent) && i + 16 < 8 * (|sent| - 4)
    ensures |got| == |sent| && FlipsExactly(Flips(sent, got), {i, i + 4, i + 11, i + 16}) && CrcAccepts(cfg, got)
  {
    got := PatternExists(sent, Pattern(8 * (|sent| - 4), {i, i + 4, i + 11, i + 16}));
    FourFlipsCanCancel(cfg, sent, got, i);
  }

  /** Two flips a multiple of 32767 bits apart: likewise, in every frame long enough to have them. */
  lemma TwoFlipsAccepted(cfg: Config, sent: seq<bv8>, i: nat, j: nat) returns (got: seq<bv8>)
    requires |sent| >= HEADER_SIZE && CrcAccepts(cfg, sent) && i < j < 8 * (|sent| - 4) && (j - i) % PERIOD == 0
    ensures |got| == |sent| && FlipsExactly(Flips(sent, got), {i, j}) && CrcAccepts(cfg, got)
  {
    got := PatternExists(sent, Pattern(8 * (|sent| - 4), {i, j}));
    TwoFlipsRejectedIff(cfg, sent, got, i, j);
    RejectsIff(cfg, got);
  }

  lemma SameCodeIff(a: seq<bv8>, b: seq<bv8>)
    requires |a| == |b| >= HEADER_SIZE
    ensures CodeBytes(a) == CodeBytes(b) <==> a[4..] == b[4..]
  {
    Rearranged(a);
    Rearranged(b);
    assert forall i :: 4 <= i < |a| ==> a[i] == a[4..][i - 4] && b[i] == b[4..][i - 4];
  }

  /** The code word's bytes, back in the order of the frame. */
  lemma Rearranged(data: seq<bv8>)
    requires |data| >= HEADER_SIZE
    ensures var d, n := CodeBytes(data), |data| - 4;
            |d| == n && data[4..] == d[..4] + [d[n - 1], d[n - 2]] + d[4..n - 2]
  {
    var d, n := CodeBytes(data), |data| - 4;
    assert d[..4] == data[4..8] && [d[n - 1], d[n - 2]] == data[8..10] && d[4..n - 2] == data[10..];
  }

  lemma {:induction false} SomeOne(e: seq<bool>, i: nat)
    requires i < |e| && e[i]
    ensures Ones(e) > 0
    decreases |e|
  {
    if i > 0 {
      SomeOne(e[1..], i - 1);
    }
  }

  /** Nothing from byte 4 on was flipped exactly when the frames agree there. */
  lemma NoFlipsIff(sent: seq<bv8>, got: seq<bv8>)
    requires |sent| == |got| >= HEADER_SIZE
    ensures Ones(Flips(sent, got)) == 0 <==> sent[4..] == got[4..]
  {
    CodeWordLength(sent);
    CodeWordLength(got);
    SameCodeIff(sent, got);
    var e := Flips(sent, got);
    if Ones(e) == 0 {
      forall i | 0 <= i < |e| ensures !e[i] {
        if e[i] {
          SomeOne(e, i);
        }
      }
      assert CodeWord(sent) == CodeWord(got);
      StreamInjective(CodeBytes(sent), CodeBytes(got));
    } else if sent[4..] == got[4..] {
      NoFlipsNoOnes(e);
    }
  }

  /** Bytes 0-3 have no influence: `unwrap` answers the same whatever they are. */
  lemma IdentifiersAreNotRead(cfg: Config, st: ReceiverState, a: seq<bv8>, b: seq<bv8>)
    requires |a| == |b| >= HEADER_SIZE && a[4..] == b[4..]
    ensures Unwrapped(cfg, st, a) == Unwrapped(cfg, st, b)
  {
    assert forall i :: 4 <= i < |a| ==> a[i] == a[4..][i - 4] && b[i] == b[4..][i - 4];
    assert a[4..8] == b[4..8] && a[HEADER_SIZE..] == b[HEADER_SIZE..];
  }

  /** The documented claim, exactly: with a code word of at most 32767 bits and at most three flips in it, a frame
      is rejected if and only if it was changed anywhere but in bytes 0-3. */
  lemma UpToThreeRejectedIff(cfg: Config, sent: seq<bv8>, got: seq<bv8>)
    requires |sent| == |got| >= HEADER_SIZE && CrcAccepts(cfg, sent)
    requires 8 * (|sent| - 4) <= PERIOD && Ones(Flips(sent, got)) <= 3
    ensures Rejects(cfg, got) <==> sent[4..] != got[4..]
  {
    NoFlipsIff(sent, got);
    if sent[4..] == got[4..] {
      IdentifiersAreNotRead(cfg, FRESH, sent, got);
    } else {
      HammingDistanceAtLeastFour(cfg, sent, got);
    }
  }
}
