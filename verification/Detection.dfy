/** What the receiver's CRC check detects (src/safety/mod.rs): the Hamming-distance claim, bursts and wrong
    identifiers.

    The code word of a frame is what the check depends on besides the receiver's own identifiers: bytes 4 to 7, the
    payload and then the CRC field, high byte first. The `i`-th entry of a flip pattern is the `i`-th bit of the
    code word. */
module Detection {
  import opened Wrappers
  import opened LinearRegister
  import opened ErrorPatterns
  import opened CrcRegister
  import opened Crc16
  import opened CrcPeriod
  import opened Safety

  function CodeBytes(data: seq<bv8>): seq<bv8>
    requires |data| >= HEADER_SIZE
  {
    data[4..8] + data[HEADER_SIZE..] + [data[9], data[8]]
  }

  function CodeWord(data: seq<bv8>): seq<bool>
    requires |data| >= HEADER_SIZE
  {
    StreamBits(CodeBytes(data))
  }

  lemma CodeWordLength(data: seq<bv8>)
    requires |data| >= HEADER_SIZE
    ensures |CodeWord(data)| == 8 * (|data| - 4)
  {
    StreamLength(CodeBytes(data));
  }

  /** The bits that differ between two frames of the same length. */
  function Flips(a: seq<bv8>, b: seq<bv8>): seq<bool>
    requires |a| == |b| >= HEADER_SIZE
  {
    CodeWordLength(a);
    CodeWordLength(b);
    XorBits(CodeWord(a), CodeWord(b))
  }

  // ---------------------------------------------------------------------------
  // The check is a residue
  // ---------------------------------------------------------------------------

  lemma LowBits(lo: bv8, hi: bv8, m: bv16)
    requires m < 0x100
    ensures Bit(FromLe16(lo, hi), m) == Bit(lo as bv16 << 8, m << 8)
  {
  }

  lemma HighBits(lo: bv8, hi: bv8, m: bv16)
    requires m & 0xFF == 0
    ensures Bit(FromLe16(lo, hi), m) == Bit(hi as bv16 << 8, m)
  {
  }

  lemma HighMask(i: nat)
    requires i < 8
    ensures Mask(i) & 0xFF == 0 && Mask(i + 8) < 0x100 && Mask(i + 8) << 8 == Mask(i)
  {
  }

  lemma WordBitAt(lo: bv8, hi: bv8, i: nat)
    requires i < 8
    ensures Of(FromLe16(lo, hi))[i] == Bits(hi)[i] && Of(FromLe16(lo, hi))[i + 8] == Bits(lo)[i]
  {
    HighMask(i);
    HighBits(lo, hi, Mask(i));
    LowBits(lo, hi, Mask(i + 8));
  }

  /** A word is its high byte followed by its low byte. */
  lemma WordBits(lo: bv8, hi: bv8)
    ensures Of(FromLe16(lo, hi)) == Bits(hi) + Bits(lo)
  {
    forall i | 0 <= i < 8
      ensures Of(FromLe16(lo, hi))[i] == Bits(hi)[i] && Of(FromLe16(lo, hi))[i + 8] == Bits(lo)[i]
    {
      WordBitAt(lo, hi, i);
    }
    forall i | 0 <= i < 16 ensures Of(FromLe16(lo, hi))[i] == (Bits(hi) + Bits(lo))[i] {
      if i >= 8 { assert Of(FromLe16(lo, hi))[(i - 8) + 8] == Bits(lo)[i - 8]; }
    }
  }

  lemma PairBits(a: bv8, b: bv8)
    ensures StreamBits([a, b]) == Of(FromLe16(b, a))
  {
    WordBits(b, a);
    assert [a, b][..1] == [a] && [a][..0] == [];
    assert StreamBits([a]) == [] + Bits(a);
  }

  /** Feeding a word leaves zero exactly when it is the register's own value. */
  lemma WordMatches(r: bv16, c: bv16)
    ensures CRC16.Residue(Of(r), Of(c)) == Of(Turns(16, r ^ c))
    ensures CRC16.Residue(Of(r), Of(c)) == ZERO <==> r == c
  {
    Lawful();
    TopBitsIs(Of(c), 16);
    assert Of(c)[..16] == Of(c);
    CRC16.WordResidue(Of(r), Of(c));
    OfTurns(16, r ^ c);
    OfXor(r, c);
    if Of(r) == Of(c) { OfInjective(r, c); }
  }

  /** The register after the receiver's own identifiers. */
  function IdRegister(cfg: Config): bv16 { CrcOf(INIT, IdBytes(cfg)) }

  /** A frame passes the check exactly when its code word brings the register to zero. */
  lemma AcceptedIffZero(cfg: Config, data: seq<bv8>)
    requires |data| >= HEADER_SIZE
    ensures CrcAccepts(cfg, data) <==> CRC16.Residue(Of(IdRegister(cfg)), CodeWord(data)) == ZERO
  {
    var payload := data[HEADER_SIZE..];
    var body := data[4..8] + payload;
    Le32Injective(data[4..8]);
    assert IdBytes(cfg) + ToLe32(CounterOf(data)) + payload == IdBytes(cfg) + body;
    CrcContinues(INIT, IdBytes(cfg), body);
    var crc := HeaderCrc(cfg, CounterOf(data), payload);
    CrcIsResidue(IdRegister(cfg), body);
    StreamConcat(body, [data[9], data[8]]);
    PairBits(data[9], data[8]);
    CRC16.ResidueConcat(Of(IdRegister(cfg)), StreamBits(body), Of(ReceivedCrc(data)));
    WordMatches(crc, ReceivedCrc(data));
  }

  /** A changed frame passes exactly when the residue of the flips is zero. */
  lemma AcceptedIffFlipsCancel(cfg: Config, sent: seq<bv8>, got: seq<bv8>)
    requires |sent| == |got| >= HEADER_SIZE && CrcAccepts(cfg, sent)
    ensures CrcAccepts(cfg, got) <==> CRC16.Residue(ZERO, Flips(sent, got)) == ZERO
  {
    var r := Of(IdRegister(cfg));
    Lawful();
    CodeWordLength(sent);
    CodeWordLength(got);
    AcceptedIffZero(cfg, sent);
    AcceptedIffZero(cfg, got);
    CRC16.XorZero(r, r);
    CRC16.ResidueLinear(r, r, CodeWord(sent), CodeWord(got));
    CRC16.XorZero(CRC16.Residue(r, CodeWord(got)), ZERO);
  }

  // ---------------------------------------------------------------------------
  // Main results
  // ---------------------------------------------------------------------------

  /** `unwrap` answers CrcMismatch and keeps its state. */
  ghost predicate Rejects(cfg: Config, data: seq<bv8>) {
    && |data| >= HEADER_SIZE
    && forall st :: Unwrapped(cfg, st, data) == (st, Err(E2EError(CrcMismatch, CounterOf(data))))
  }

  lemma RejectsIff(cfg: Config, data: seq<bv8>)
    requires |data| >= HEADER_SIZE
    ensures Rejects(cfg, data) <==> !CrcAccepts(cfg, data)
  {
    assert Unwrapped(cfg, FRESH, data).1.Ok? <==> CrcAccepts(cfg, data);
  }

  /** An odd number of flips, anywhere from byte 4 on and in a frame of any length, is rejected. */
  lemma OddFlipsRejected(cfg: Config, sent: seq<bv8>, got: seq<bv8>)
    requires |sent| == |got| >= HEADER_SIZE && CrcAccepts(cfg, sent)
    requires Ones(Flips(sent, got)) % 2 == 1
    ensures Rejects(cfg, got)
  {
    Lawful();
    PolynomialIsEven();
    OddWeightDetected(CRC16, Flips(sent, got));
    AcceptedIffFlipsCancel(cfg, sent, got);
    RejectsIff(cfg, got);
  }

  lemma HighIsTopPower()
    ensures HIGH == CRC16.Pow(15, ONE)
  {
    SmallPower(15);
    OfOne();
  }

  /** Two flips go unnoticed exactly when they are a multiple of 32767 bits apart. */
  lemma TwoFlipsRejectedIff(cfg: Config, sent: seq<bv8>, got: seq<bv8>, i: nat, j: nat)
    requires |sent| == |got| >= HEADER_SIZE && CrcAccepts(cfg, sent)
    requires i < j && FlipsExactly(Flips(sent, got), {i, j})
    ensures Rejects(cfg, got) <==> (j - i) % PERIOD != 0
  {
    Lawful();
    TwoFlips(CRC16, Flips(sent, got), i, j);
    HighIsTopPower();
    PeriodOfHi(CRC16, j - i);
    PeriodIs(j - i);
    AcceptedIffFlipsCancel(cfg, sent, got);
    RejectsIff(cfg, got);
  }

  /** The documented claim.  In a code word of at most 32767 bits, one to three flips are always rejected: the Hamming
      distance is at least 4. */
  lemma HammingDistanceAtLeastFour(cfg: Config, sent: seq<bv8>, got: seq<bv8>)
    requires |sent| == |got| >= HEADER_SIZE && CrcAccepts(cfg, sent)
    requires 8 * (|sent| - 4) <= PERIOD
    requires 1 <= Ones(Flips(sent, got)) <= 3
    ensures Rejects(cfg, got)
  {
    if Ones(Flips(sent, got)) == 2 {
      CodeWordLength(sent);
      CodeWordLength(got);
      var i, j := PositionsOfTwo(Flips(sent, got));
      TwoFlipsRejectedIff(cfg, sent, got, i, j);
    } else {
      OddFlipsRejected(cfg, sent, got);
    }
  }

  lemma FourSpikes(e: seq<bool>, i: nat)
    requires FlipsExactly(e, {i, i + 4, i + 11, i + 16})
    ensures i + 16 < |e|
    ensures e == XorBits(XorBits(Spike(|e|, i), Spike(|e|, i + 4)), XorBits(Spike(|e|, i + 11), Spike(|e|, i + 16)))
  {
    assert i + 16 in {i, i + 4, i + 11, i + 16};
  }

  lemma ResidueOfTwo<R(!new)>(m: Register<R>, n: nat, i: nat, j: nat)
    requires m.Lawful() && i < n && j < n
    ensures m.Residue(m.zero, XorBits(Spike(n, i), Spike(n, j))) == m.xor(m.Pow(n - i, m.hi), m.Pow(n - j, m.hi))
  {
    m.XorZero(m.zero, m.zero);
    m.ResidueLinear(m.zero, m.zero, Spike(n, i), Spike(n, j));
    OneFlip(m, Spike(n, i), i);
    OneFlip(m, Spike(n, j), j);
  }

  /** And it is no more than 4: four flips in the pattern of the polynomial cancel, wherever they start. */
  lemma FourFlipsCanCancel(cfg: Config, sent: seq<bv8>, got: seq<bv8>, i: nat)
    requires |sent| == |got| >= HEADER_SIZE && CrcAccepts(cfg, sent)
    requires FlipsExactly(Flips(sent, got), {i, i + 4, i + 11, i + 16})
    ensures CrcAccepts(cfg, got)
  {
    var e := Flips(sent, got);
    var n := |e|;
    FourSpikes(e, i);
    Lawful();
    CRC16.XorZero(ZERO, ZERO);
    CRC16.ResidueLinear(ZERO, ZERO, XorBits(Spike(n, i), Spike(n, i + 4)), XorBits(Spike(n, i + 11), Spike(n, i + 16)));
    ResidueOfTwo(CRC16, n, i, i + 4);
    ResidueOfTwo(CRC16, n, i + 11, i + 16);
    PolynomialVanishes(n - i - 16);
    AcceptedIffFlipsCancel(cfg, sent, got);
  }

  lemma PowerOfHigh(k: nat, j: nat)
    ensures CRC16.Pow(k + j, HIGH) == CRC16.Pow(k + 15, CRC16.Pow(j, ONE))
  {
    HighIsTopPower();
    CRC16.PowAdd(k + j, 15, ONE);
    CRC16.PowAdd(k + 15, j, ONE);
  }

  lemma PowLinear4<R(!new)>(m: Register<R>, n: nat, a: R, b: R, c: R, d: R)
    requires m.Lawful()
    ensures m.Pow(n, m.xor(m.xor(a, b), m.xor(c, d))) ==
            m.xor(m.xor(m.Pow(n, a), m.Pow(n, b)), m.xor(m.Pow(n, c), m.Pow(n, d)))
  {
    m.PowLinear(n, a, b);
    m.PowLinear(n, c, d);
    m.PowLinear(n, m.xor(a, b), m.xor(c, d));
  }

  /** x^16 + x^12 + x^5 + 1 is zero, and so are its multiples. */
  lemma PolynomialVanishes(k: nat)
    ensures Xor(Xor(CRC16.Pow(k + 16, HIGH), CRC16.Pow(k + 12, HIGH)),
                Xor(CRC16.Pow(k + 5, HIGH), CRC16.Pow(k, HIGH))) == ZERO
  {
    var a, b, c := CRC16.Pow(16, ONE), CRC16.Pow(12, ONE), CRC16.Pow(5, ONE);
    PowerOfHigh(k, 16);
    PowerOfHigh(k, 12);
    PowerOfHigh(k, 5);
    HighPower(k);
    SumVanishes(k + 15, a, b, c, ONE);
  }

  lemma HighPower(k: nat)
    ensures CRC16.Pow(k, HIGH) == CRC16.Pow(k + 15, ONE)
  {
    PowerOfHigh(k, 0);
  }

  lemma SumVanishes(n: nat, a: Word, b: Word, c: Word, d: Word)
    requires a == CRC16.Pow(16, ONE) && b == CRC16.Pow(12, ONE) && c == CRC16.Pow(5, ONE) && d == ONE
    ensures Xor(Xor(CRC16.Pow(n, a), CRC16.Pow(n, b)), Xor(CRC16.Pow(n, c), CRC16.Pow(n, d))) == ZERO
  {
    Lawful();
    FourTermsVanish();
    PowLinear4(CRC16, n, a, b, c, d);
    CRC16.PowZero(n, ZERO);
  }

  lemma FourTermsVanish()
    ensures Xor(Xor(CRC16.Pow(16, ONE), CRC16.Pow(12, ONE)), Xor(CRC16.Pow(5, ONE), ONE)) == ZERO
  {
    EvenPowerIs(8);
    EvenPowerIs(6);
    SmallPower(5);
    OfOne();
    OfXor(EvenPower(8), EvenPower(6));
    OfXor(0x20, 1);
    OfXor(EvenPower(8) ^ EvenPower(6), 0x20 ^ 1);
    assert EvenPower(8) ^ EvenPower(6) ^ (0x20 ^ 1) == 0;
  }

  /** Any change confined to 16 consecutive bits of the code word is rejected. */
  lemma BurstRejected(cfg: Config, sent: seq<bv8>, got: seq<bv8>, at: nat)
    requires |sent| == |got| >= HEADER_SIZE && CrcAccepts(cfg, sent)
    requires WithinBurst(Flips(sent, got), at, 16) && Ones(Flips(sent, got)) > 0
    ensures Rejects(cfg, got)
  {
    Lawful();
    OneIsTheLowestBit();
    BurstDetected(CRC16, Flips(sent, got), at);
    AcceptedIffFlipsCancel(cfg, sent, got);
    RejectsIff(cfg, got);
  }

  // ---------------------------------------------------------------------------
  // Frames from another sender
  // ---------------------------------------------------------------------------

  /** A field as the register sees it: low byte first on the wire. */
  function Swapped(x: bv16): bv16 { FromLe16(ToLe16(x)[1], ToLe16(x)[0]) }

  lemma IdWords(cfg: Config)
    ensures StreamBits(IdBytes(cfg)) == Of(Swapped(cfg.dataId)) + Of(Swapped(cfg.sourceId))
  {
    var d, s := ToLe16(cfg.dataId), ToLe16(cfg.sourceId);
    StreamConcat(d, s);
    assert d == [d[0], d[1]] && s == [s[0], s[1]];
    PairBits(d[0], d[1]);
    PairBits(s[0], s[1]);
  }

  /** A register fed two words. */
  function TwoWords<R(!new)>(m: Register<R>, start: R, first: R, second: R): R {
    m.Pow(m.width, m.xor(m.Pow(m.width, m.xor(start, first)), second))
  }

  lemma TwoWordsAgree<R(!new)>(m: Register<R>, r: R, a: R, b: R, c: R, d: R)
    requires m.Lawful()
    ensures TwoWords(m, r, a, b) == TwoWords(m, r, c, d) <==> m.Pow(m.width, m.xor(a, c)) == m.xor(b, d)
  {
    var n := m.width;
    var p, q := m.Pow(n, m.xor(r, a)), m.Pow(n, m.xor(r, c));
    if m.Pow(n, m.xor(p, b)) == m.Pow(n, m.xor(q, d)) { m.PowInjective(n, m.xor(p, b), m.xor(q, d)); }
    m.XorZero(m.xor(p, b), m.xor(q, d));
    m.XorPairs(p, b, q, d);
    m.XorZero(m.xor(p, q), m.xor(b, d));
    m.PowLinear(n, m.xor(r, a), m.xor(r, c));
    m.XorPairs(r, a, r, c);
    m.XorZero(r, r);
    m.XorZero(m.xor(a, c), m.zero);
  }

  lemma IdRegisterIs(cfg: Config)
    ensures Of(IdRegister(cfg)) == TwoWords(CRC16, Of(INIT), Of(Swapped(cfg.dataId)), Of(Swapped(cfg.sourceId)))
  {
    CrcIsResidue(INIT, IdBytes(cfg));
    IdWords(cfg);
    TwoWordsFed(Of(INIT), Of(Swapped(cfg.dataId)), Of(Swapped(cfg.sourceId)));
  }

  lemma TwoWordsFed(r: Word, a: Word, b: Word)
    ensures CRC16.Residue(r, a + b) == TwoWords(CRC16, r, a, b)
  {
    Lawful();
    CRC16.ResidueConcat(r, a, b);
    TopBitsIs(a, 16);
    TopBitsIs(b, 16);
    assert a[..16] == a && b[..16] == b;
    CRC16.WordResidue(r, a);
    CRC16.WordResidue(CRC16.Residue(r, a), b);
  }

  lemma SameIdRegisterIff(a: Config, b: Config)
    ensures Of(IdRegister(a)) == Of(IdRegister(b)) <==>
            Turns(16, Swapped(a.dataId) ^ Swapped(b.dataId)) == Swapped(a.sourceId) ^ Swapped(b.sourceId)
  {
    IdRegisterIs(a);
    IdRegisterIs(b);
    SameTwoWords(Of(INIT), Swapped(a.dataId), Swapped(a.sourceId), Swapped(b.dataId), Swapped(b.sourceId));
  }

  lemma SameTwoWords(r: Word, a: bv16, b: bv16, c: bv16, d: bv16)
    ensures TwoWords(CRC16, r, Of(a), Of(b)) == TwoWords(CRC16, r, Of(c), Of(d)) <==> Turns(16, a ^ c) == b ^ d
  {
    Lawful();
    TwoWordsAgree(CRC16, r, Of(a), Of(b), Of(c), Of(d));
    OnWords(a, c, b, d);
  }

  lemma OnWords(a: bv16, c: bv16, b: bv16, d: bv16)
    ensures Turns(16, a ^ c) == b ^ d <==> CRC16.Pow(16, Xor(Of(a), Of(c))) == Xor(Of(b), Of(d))
  {
    OfTurns(16, a ^ c);
    OfXor(a, c);
    OfXor(b, d);
    if Of(Turns(16, a ^ c)) == Of(b ^ d) { OfInjective(Turns(16, a ^ c), b ^ d); }
  }

  /** A frame protected under `a` passes under `b` exactly when the change of the data identifier, pushed through the
      register, equals the change of the source identifier. */
  lemma ForeignFrameAcceptedIff(a: Config, b: Config, counter: u32, payload: seq<bv8>)
    ensures CrcAccepts(b, Protected(a, counter, payload)) <==>
            Turns(16, Swapped(a.dataId) ^ Swapped(b.dataId)) == Swapped(a.sourceId) ^ Swapped(b.sourceId)
  {
    var f := Protected(a, counter, payload);
    ProtectedFields(a, counter, payload);
    AcceptedIffZero(a, f);
    AcceptedIffZero(b, f);
    SameResidue(Of(IdRegister(a)), Of(IdRegister(b)), CodeWord(f));
    SameIdRegisterIff(a, b);
  }

  lemma SameResidue(r: Word, s: Word, w: seq<bool>)
    requires CRC16.Residue(r, w) == ZERO
    ensures CRC16.Residue(s, w) == ZERO <==> r == s
  {
    Lawful();
    CRC16.ResidueLinear(r, s, w, w);
    CRC16.XorZero(ZERO, CRC16.Residue(s, w));
    NoFlips(CRC16, Xor(r, s), XorBits(w, w));
    CRC16.PowZero(|w|, Xor(r, s));
    CRC16.XorZero(r, s);
  }

  lemma TurnsInjective(n: nat, a: bv16, b: bv16)
    ensures Turns(n, a) == Turns(n, b) <==> a == b
  {
    Lawful();
    OfTurns(n, a);
    OfTurns(n, b);
    if Turns(n, a) == Turns(n, b) {
      CRC16.PowInjective(n, Of(a), Of(b));
      OfInjective(a, b);
    }
  }

  lemma SwappedTwice(x: bv16)
    ensures Swapped(Swapped(x)) == x
  {
  }

  lemma XorZeroIff(x: bv16, y: bv16)
    ensures x ^ y == 0 <==> x == y
  {
  }

  lemma SwappedInjective(x: bv16, y: bv16)
    ensures Swapped(x) ^ Swapped(y) == 0 <==> x == y
  {
    XorZeroIff(Swapped(x), Swapped(y));
    if Swapped(x) == Swapped(y) {
      SwappedTwice(x);
      SwappedTwice(y);
    }
  }

  /** A frame whose sender differs in exactly one of the two identifiers is always rejected. */
  lemma WrongIdentifierRejected(a: Config, b: Config, counter: u32, payload: seq<bv8>)
    requires (a.dataId == b.dataId) != (a.sourceId == b.sourceId)
    ensures Rejects(b, Protected(a, counter, payload))
  {
    ForeignFrameAcceptedIff(a, b, counter, payload);
    SwappedInjective(a.dataId, b.dataId);
    SwappedInjective(a.sourceId, b.sourceId);
    TurnsOfZero(16);
    TurnsInjective(16, Swapped(a.dataId) ^ Swapped(b.dataId), 0);
    ProtectedFields(a, counter, payload);
    RejectsIff(b, Protected(a, counter, payload));
  }

  lemma {:induction false} TurnsOfZero(n: nat)
    ensures Turns(n, 0) == 0
  {
    if n > 0 { TurnsOfZero(n - 1); }
  }
}
