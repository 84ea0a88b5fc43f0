/** Flips in the order in which the bits travel (src/safety/mod.rs, wire format): where the CRC field stands between
    the counter and the payload and is sent low byte first.

    A change that stays within the counter, the CRC field or the payload is also one piece of the code word. A burst
    across a boundary of the CRC field is not, and some of them pass the check. */
module WireErrors {
  import opened LinearRegister
  import opened ErrorPatterns
  import opened CrcRegister
  import opened Crc16
  import opened CrcPeriod
  import opened Safety
  import opened Detection
  import opened FlipPatterns

  /** The flipped bits of the whole frame. */
  function WireFlips(a: seq<bv8>, b: seq<bv8>): seq<bool>
    requires |a| == |b|
  {
    StreamLength(a);
    StreamLength(b);
    XorBits(StreamBits(a), StreamBits(b))
  }

  lemma {:induction false} StreamAt(data: seq<bv8>, k: nat, j: nat)
    requires k < |data| && j < 8
    ensures |StreamBits(data)| == 8 * |data| && StreamBits(data)[8 * k + j] == Bits(data[k])[j]
    decreases |data|
  {
    StreamLength(data);
    StreamLength(data[..|data| - 1]);
    if k < |data| - 1 {
      StreamAt(data[..|data| - 1], k, j);
    }
  }

  /** Where byte `k` of a frame of `n` bytes stands in the code word. */
  function CodeByte(n: nat, k: nat): nat
    requires 4 <= k < n && n >= HEADER_SIZE
  {
    if k < 8 then k - 4 else if k == 8 then n - 5 else if k == 9 then n - 6 else k - 6
  }

  /** Where wire bit `i` stands in the code word. */
  function CodePosition(n: nat, i: nat): nat
    requires 32 <= i < 8 * n && n >= HEADER_SIZE
  {
    if i < 64 then i - 32
    else if i < 72 then 8 * (n - 5) + (i - 64)
    else if i < 80 then 8 * (n - 6) + (i - 72)
    else i - 48
  }

  lemma SameBitOfByte(n: nat, k: nat, j: nat)
    requires 4 <= k < n && j < 8 && n >= HEADER_SIZE
    ensures CodePosition(n, 8 * k + j) == 8 * CodeByte(n, k) + j
  {
  }

  lemma CodeByteIs(data: seq<bv8>, k: nat)
    requires 4 <= k < |data| && |data| >= HEADER_SIZE
    ensures |CodeBytes(data)| == |data| - 4 && CodeBytes(data)[CodeByte(|data|, k)] == data[k]
  {
  }

  /** Bit `j` of byte `k`, on the wire and in the code word. */
  lemma BitInCode(data: seq<bv8>, k: nat, j: nat)
    requires |data| >= HEADER_SIZE && 4 <= k < |data| && j < 8
    ensures var c := CodePosition(|data|, 8 * k + j);
            && |StreamBits(data)| == 8 * |data| && c < |CodeWord(data)| == 8 * (|data| - 4)
            && CodeWord(data)[c] == StreamBits(data)[8 * k + j]
  {
    SameBitOfByte(|data|, k, j);
    CodeByteIs(data, k);
    StreamAt(data, k, j);
    CodeWordAt(data, CodeByte(|data|, k), j);
  }

  lemma CodeWordAt(data: seq<bv8>, k: nat, j: nat)
    requires |data| >= HEADER_SIZE && k < |CodeBytes(data)| && j < 8
    ensures |CodeWord(data)| == 8 * (|data| - 4) && CodeWord(data)[8 * k + j] == Bits(CodeBytes(data)[k])[j]
  {
    CodeWordLength(data);
    StreamAt(CodeBytes(data), k, j);
  }

  lemma FlipAt(a: seq<bv8>, b: seq<bv8>, i: nat)
    requires |a| == |b| >= HEADER_SIZE && 32 <= i < 8 * |a|
    ensures |WireFlips(a, b)| == 8 * |a| && |Flips(a, b)| == 8 * (|a| - 4)
    ensures CodePosition(|a|, i) < |Flips(a, b)| && Flips(a, b)[CodePosition(|a|, i)] == WireFlips(a, b)[i]
  {
    assert i == 8 * (i / 8) + i % 8;
    BitInCode(a, i / 8, i % 8);
    BitInCode(b, i / 8, i % 8);
  }

  /** And back: the wire position of a code position. */
  function WirePosition(n: nat, c: nat): nat
    requires c < 8 * (n - 4) && n >= HEADER_SIZE
  {
    if c < 32 then c + 32
    else if c >= 8 * (n - 5) then 64 + (c - 8 * (n - 5))
    else if c >= 8 * (n - 6) then 72 + (c - 8 * (n - 6))
    else c + 48
  }

  lemma PositionsMatch(n: nat, c: nat)
    requires c < 8 * (n - 4) && n >= HEADER_SIZE
    ensures 32 <= WirePosition(n, c) < 8 * n && CodePosition(n, WirePosition(n, c)) == c
  {
  }

  lemma WireOf(a: seq<bv8>, b: seq<bv8>, c: nat)
    requires |a| == |b| >= HEADER_SIZE && c < 8 * (|a| - 4)
    ensures |Flips(a, b)| == 8 * (|a| - 4) && |WireFlips(a, b)| == 8 * |a|
    ensures 32 <= WirePosition(|a|, c) < 8 * |a| && Flips(a, b)[c] == WireFlips(a, b)[WirePosition(|a|, c)]
  {
    PositionsMatch(|a|, c);
    FlipAt(a, b, WirePosition(|a|, c));
  }

  /** A byte none of whose bits was flipped is unchanged. */
  lemma Unchanged(a: seq<bv8>, b: seq<bv8>, k: nat)
    requires |a| == |b| && k < |a|
    requires |WireFlips(a, b)| == 8 * |a| && forall i :: 8 * k <= i < 8 * k + 8 ==> !WireFlips(a, b)[i]
    ensures a[k] == b[k]
  {
    forall j | 0 <= j < 8 ensures Bits(a[k])[j] == Bits(b[k])[j] {
      StreamAt(a, k, j);
      StreamAt(b, k, j);
      assert !WireFlips(a, b)[8 * k + j];
    }
    assert Bits(a[k]) == Bits(b[k]);
    BitsInjective(a[k], b[k]);
  }

  // ---------------------------------------------------------------------------
  // One flip and two flips
  // ---------------------------------------------------------------------------

  /** A single flipped bit is noticed exactly when it is not in bytes 0-3. */
  lemma SingleFlipRejectedIff(cfg: Config, sent: seq<bv8>, got: seq<bv8>, i: nat)
    requires |sent| == |got| >= HEADER_SIZE && CrcAccepts(cfg, sent)
    requires FlipsExactly(WireFlips(sent, got), {i})
    ensures Rejects(cfg, got) <==> i >= 32
  {
    var n := |sent|;
    StreamLength(sent);
    assert i in {i};
    if i >= 32 {
      FlipAt(sent, got, i);
      WireBurstInOnePiece(cfg, sent, got, if i < 48 then 32 else if i < 64 then 48 else i, if i < 64 then 16 else 1);
      SomeOne(Flips(sent, got), CodePosition(n, i));
      NoFlipsIff(sent, got);
    } else {
      OnlyIdentifiers(sent, got);
      IdentifiersAreNotRead(cfg, FRESH, sent, got);
    }
  }

  lemma OnlyIdentifiers(a: seq<bv8>, b: seq<bv8>)
    requires |a| == |b| >= HEADER_SIZE && |WireFlips(a, b)| == 8 * |a|
    requires forall i :: 32 <= i < 8 * |a| ==> !WireFlips(a, b)[i]
    ensures a[4..] == b[4..]
  {
    forall k | 4 <= k < |a| ensures a[k] == b[k] {
      Unchanged(a, b, k);
    }
  }

  /** The same pattern in code-word order. */
  lemma PairInCode(a: seq<bv8>, b: seq<bv8>, i: nat, j: nat)
    requires |a| == |b| >= HEADER_SIZE && 32 <= i < 8 * |a| && 32 <= j < 8 * |a| && i != j
    requires FlipsExactly(WireFlips(a, b), {i, j})
    ensures FlipsExactly(Flips(a, b), {CodePosition(|a|, i), CodePosition(|a|, j)})
    ensures CodePosition(|a|, i) != CodePosition(|a|, j)
  {
    FlipAt(a, b, i);
    FlipAt(a, b, j);
    forall c | 0 <= c < |Flips(a, b)| ensures Flips(a, b)[c] <==> c in {CodePosition(|a|, i), CodePosition(|a|, j)} {
      WireOf(a, b, c);
      PositionsMatch(|a|, c);
    }
  }

  /** Two flips of the code word, in either order. */
  lemma TwoCodeFlipsRejectedIff(cfg: Config, sent: seq<bv8>, got: seq<bv8>, c: nat, d: nat)
    requires |sent| == |got| >= HEADER_SIZE && CrcAccepts(cfg, sent)
    requires c != d && FlipsExactly(Flips(sent, got), {c, d})
    ensures Rejects(cfg, got) <==> (d - c) % PERIOD != 0
  {
    if c < d {
      TwoFlipsRejectedIff(cfg, sent, got, c, d);
    } else {
      assert {c, d} == {d, c};
      TwoFlipsRejectedIff(cfg, sent, got, d, c);
      NegativeMultiple(c - d);
    }
  }

  /** Two flips from byte 4 on go unnoticed exactly when their places in the code word are a multiple of 32767 apart. */
  lemma TwoWireFlipsRejectedIff(cfg: Config, sent: seq<bv8>, got: seq<bv8>, i: nat, j: nat)
    requires |sent| == |got| >= HEADER_SIZE && CrcAccepts(cfg, sent)
    requires 32 <= i < 8 * |sent| && 32 <= j < 8 * |sent| && i != j && FlipsExactly(WireFlips(sent, got), {i, j})
    ensures Rejects(cfg, got) <==> (CodePosition(|sent|, j) - CodePosition(|sent|, i)) % PERIOD != 0
  {
    var c, d := CodePosition(|sent|, i), CodePosition(|sent|, j);
    PairInCode(sent, got, i, j);
    TwoCodeFlipsRejectedIff(cfg, sent, got, c, d);
  }

  lemma NegativeMultiple(d: int)
    ensures -d % PERIOD == 0 <==> d % PERIOD == 0
  {
  }

  // ---------------------------------------------------------------------------
  // Bursts in one piece
  // ---------------------------------------------------------------------------

  /** A burst that touches at most one of counter, CRC field and payload. */
  predicate InOnePiece(at: nat, width: nat) { at + width <= 64 || (at >= 64 && at + width <= 80) || at >= 80 }

  lemma PieceInCode(a: seq<bv8>, b: seq<bv8>, at: nat, width: nat) returns (c: nat)
    requires |a| == |b| >= HEADER_SIZE && width <= 16 && at + width <= 8 * |a| && InOnePiece(at, width)
    requires WithinBurst(WireFlips(a, b), at, width)
    ensures WithinBurst(Flips(a, b), c, 16)
  {
    var n := |a|;
    CodeWordLength(a);
    CodeWordLength(b);
    c := if at + width <= 64 then (if at < 32 then 0 else if at < 48 then at - 32 else 16)
         else if at < 80 then 8 * (n - 6)
         else if at + 16 <= 8 * n then at - 48
         else 8 * (n - 6) - 16;
    forall i | 0 <= i < |Flips(a, b)| && Flips(a, b)[i] ensures c <= i < c + 16 {
      WireOf(a, b, i);
    }
  }

  /** Such a burst is noticed exactly when it changes something from byte 4 on. */
  lemma WireBurstInOnePiece(cfg: Config, sent: seq<bv8>, got: seq<bv8>, at: nat, width: nat)
    requires |sent| == |got| >= HEADER_SIZE && CrcAccepts(cfg, sent)
    requires width <= 16 && InOnePiece(at, width) && WithinBurst(WireFlips(sent, got), at, width)
    ensures Rejects(cfg, got) <==> sent[4..] != got[4..]
  {
    StreamLength(sent);
    NoFlipsIff(sent, got);
    if sent[4..] == got[4..] {
      IdentifiersAreNotRead(cfg, FRESH, sent, got);
    } else {
      var c := PieceInCode(sent, got, at, width);
      BurstRejected(cfg, sent, got, c);
    }
  }

  // ---------------------------------------------------------------------------
  // Bursts across a boundary of the CRC field
  // ---------------------------------------------------------------------------

  /** The two bytes before the CRC field. */
  function CounterTail(data: seq<bv8>): bv16
    requires |data| >= HEADER_SIZE
  {
    FromLe16(data[7], data[6])
  }

  /** The first two payload bytes, with a zero for a missing one. */
  function Lead(data: seq<bv8>): bv16
    requires |data| > HEADER_SIZE
  {
    FromLe16(if |data| > HEADER_SIZE + 1 then data[HEADER_SIZE + 1] else 0, data[HEADER_SIZE])
  }

  /** One word changes another through `n` steps of the register. */
  lemma OnAllWords(n: nat, a: bv16, b: bv16, c: bv16, d: bv16)
    ensures a ^ b == Turns(n, c ^ d) <==> Xor(Of(a), Of(b)) == CRC16.Pow(n, Xor(Of(c), Of(d)))
  {
    OfTurns(n, c ^ d);
    OfXor(a, b);
    OfXor(c, d);
    if Of(a ^ b) == Of(Turns(n, c ^ d)) { OfInjective(a ^ b, Turns(n, c ^ d)); }
  }

  lemma XorConcat(a: seq<bool>, b: seq<bool>, c: seq<bool>, d: seq<bool>)
    requires |a| == |c| && |b| == |d|
    ensures XorBits(a + b, c + d) == XorBits(a, c) + XorBits(b, d)
  {
  }

  lemma XorSame(a: seq<bool>)
    ensures XorBits(a, a) == Zeros(|a|)
  {
  }

  /** A whole word of the stream. */
  lemma WordFed(r: Word, c: Word)
    ensures CRC16.Residue(r, c) == CRC16.Pow(16, Xor(r, c))
    ensures CRC16.Residue(r, c) == ZERO <==> r == c
  {
    Lawful();
    TopBitsIs(c, 16);
    assert c[..16] == c;
    CRC16.WordResidue(r, c);
  }

  /** A word, then silence, then a word: the register ends at zero when the second is where the first has got to. */
  lemma TwoWordsCancelIff(before: nat, a: Word, between: nat, c: Word)
    ensures CRC16.Residue(ZERO, Zeros(before) + (a + (Zeros(between) + c))) == ZERO
            <==> c == CRC16.Pow(between, CRC16.Pow(16, a))
  {
    Lawful();
    var p := CRC16.Pow(16, a);
    CRC16.ResidueConcat(ZERO, Zeros(before), a + (Zeros(between) + c));
    NoFlips(CRC16, ZERO, Zeros(before));
    CRC16.PowZero(before, ZERO);
    CRC16.ResidueConcat(ZERO, a, Zeros(between) + c);
    WordFed(ZERO, a);
    assert Xor(ZERO, a) == a;
    LastWordIff(p, between, c);
  }

  lemma LastWordIff(p: Word, between: nat, c: Word)
    ensures CRC16.Residue(p, Zeros(between) + c) == ZERO <==> c == CRC16.Pow(between, p)
  {
    Lawful();
    CRC16.ResidueConcat(p, Zeros(between), c);
    NoFlips(CRC16, p, Zeros(between));
    WordFed(CRC16.Pow(between, p), c);
  }

  /** Half a word, then a word. */
  lemma HalfWordCancelsIff(before: nat, a: Word, c: Word)
    requires a[8..] == Zeros(8)
    ensures CRC16.Residue(ZERO, Zeros(before) + (a[..8] + c)) == ZERO <==> c == CRC16.Pow(8, a)
  {
    Lawful();
    CRC16.ResidueConcat(ZERO, Zeros(before), a[..8] + c);
    NoFlips(CRC16, ZERO, Zeros(before));
    CRC16.PowZero(before, ZERO);
    CRC16.ResidueConcat(ZERO, a[..8], c);
    HalfWord(a);
    WordFed(CRC16.Pow(8, a), c);
  }

  lemma HalfWord(a: Word)
    requires a[8..] == Zeros(8)
    ensures CRC16.Residue(ZERO, a[..8]) == CRC16.Pow(8, a)
  {
    Lawful();
    CRC16.WordIsBits(ZERO, a, 8);
    assert Xor(ZERO, a) == a;
    TopBitsIs(a, 8);
    LeftByIs(a, 8);
    assert CRC16.LeftBy(a, 8) == ZERO;
    CRC16.XorZero(CRC16.Residue(ZERO, a[..8]), ZERO);
    assert Xor(CRC16.Residue(ZERO, a[..8]), ZERO) == CRC16.Residue(ZERO, a[..8]);
  }

  lemma CodeEnd(data: seq<bv8>, head: seq<bv8>)
    requires |data| >= HEADER_SIZE && CodeBytes(data) == head + [data[9], data[8]]
    ensures CodeWord(data) == StreamBits(head) + Of(ReceivedCrc(data))
  {
    StreamConcat(head, [data[9], data[8]]);
    PairBits(data[9], data[8]);
  }

  lemma CounterSideParts(data: seq<bv8>)
    requires |data| >= HEADER_SIZE
    ensures CodeWord(data) == StreamBits(data[4..6])
                              + (Of(CounterTail(data)) + (StreamBits(data[HEADER_SIZE..]) + Of(ReceivedCrc(data))))
  {
    var payload := data[HEADER_SIZE..];
    assert data[4..8] == data[4..6] + [data[6], data[7]];
    CodeEnd(data, data[4..6] + [data[6], data[7]] + payload);
    ThreePieces(data[4..6], data[6], data[7], payload);
    PairBits(data[6], data[7]);
    FourPieces(StreamBits(data[4..6]), Of(CounterTail(data)), StreamBits(payload), Of(ReceivedCrc(data)));
  }

  lemma FourPieces(a: seq<bool>, b: seq<bool>, c: seq<bool>, d: seq<bool>)
    ensures a + b + c + d == a + (b + (c + d))
  {
  }

  lemma ThreePieces(head: seq<bv8>, hi: bv8, lo: bv8, payload: seq<bv8>)
    ensures StreamBits(head + [hi, lo] + payload) == StreamBits(head) + StreamBits([hi, lo]) + StreamBits(payload)
  {
    StreamConcat(head + [hi, lo], payload);
    StreamConcat(head, [hi, lo]);
  }

  /** Only bytes 6-9 changed. */
  lemma CounterSideFlips(sent: seq<bv8>, got: seq<bv8>)
    requires |sent| == |got| >= HEADER_SIZE && sent[4..6] == got[4..6] && sent[HEADER_SIZE..] == got[HEADER_SIZE..]
    ensures Flips(sent, got) == Zeros(16) + (Xor(Of(CounterTail(sent)), Of(CounterTail(got)))
                                             + (Zeros(8 * (|sent| - HEADER_SIZE))
                                                + Xor(Of(ReceivedCrc(sent)), Of(ReceivedCrc(got)))))
  {
    var c, p := StreamBits(sent[4..6]), StreamBits(sent[HEADER_SIZE..]);
    var a, b, f, g := Of(CounterTail(sent)), Of(CounterTail(got)), Of(ReceivedCrc(sent)), Of(ReceivedCrc(got));
    CounterSideParts(sent);
    CounterSideParts(got);
    StreamLength(sent[4..6]);
    StreamLength(sent[HEADER_SIZE..]);
    XorConcat(c, a + (p + f), c, b + (p + g));
    XorConcat(a, p + f, b, p + g);
    XorConcat(p, f, p, g);
    XorSame(c);
    XorSame(p);
  }

  lemma CounterSideIff(cfg: Config, sent: seq<bv8>, got: seq<bv8>, n: nat)
    requires |sent| == |got| >= HEADER_SIZE && CrcAccepts(cfg, sent) && n == 8 * (|sent| - HEADER_SIZE)
    requires sent[4..6] == got[4..6] && sent[HEADER_SIZE..] == got[HEADER_SIZE..]
    ensures CrcAccepts(cfg, got) <==>
            Xor(Of(ReceivedCrc(sent)), Of(ReceivedCrc(got)))
            == CRC16.Pow(n + 16, Xor(Of(CounterTail(sent)), Of(CounterTail(got))))
  {
    var a, c := Xor(Of(CounterTail(sent)), Of(CounterTail(got))), Xor(Of(ReceivedCrc(sent)), Of(ReceivedCrc(got)));
    AcceptedIffFlipsCancel(cfg, sent, got);
    CounterSideFlips(sent, got);
    TwoWordsCancelIff(16, a, n, c);
    CRC16.PowAdd(n, 16, a);
  }

  lemma PayloadSideParts(data: seq<bv8>)
    requires |data| > HEADER_SIZE + 1
    ensures CodeWord(data) == StreamBits(data[4..8])
                              + (Of(Lead(data)) + (StreamBits(data[HEADER_SIZE + 2..]) + Of(ReceivedCrc(data))))
  {
    var tail, pair := data[HEADER_SIZE + 2..], [data[HEADER_SIZE], data[HEADER_SIZE + 1]];
    assert data[HEADER_SIZE..] == pair + tail;
    CodeEnd(data, data[4..8] + (pair + tail));
    StreamConcat(data[4..8], pair + tail);
    StreamConcat(pair, tail);
    PairBits(data[HEADER_SIZE], data[HEADER_SIZE + 1]);
    ConcatAssociates(Of(Lead(data)), StreamBits(tail), Of(ReceivedCrc(data)));
    ConcatAssociates(StreamBits(data[4..8]), StreamBits(pair + tail), Of(ReceivedCrc(data)));
  }

  /** Only bytes 8-11 changed. */
  lemma PayloadSideFlips(sent: seq<bv8>, got: seq<bv8>)
    requires |sent| == |got| > HEADER_SIZE + 1 && sent[4..8] == got[4..8]
    requires sent[HEADER_SIZE + 2..] == got[HEADER_SIZE + 2..]
    ensures Flips(sent, got) == Zeros(32) + (Xor(Of(Lead(sent)), Of(Lead(got)))
                                             + (Zeros(8 * (|sent| - HEADER_SIZE - 2))
                                                + Xor(Of(ReceivedCrc(sent)), Of(ReceivedCrc(got)))))
  {
    var c, p := StreamBits(sent[4..8]), StreamBits(sent[HEADER_SIZE + 2..]);
    var a, b, f, g := Of(Lead(sent)), Of(Lead(got)), Of(ReceivedCrc(sent)), Of(ReceivedCrc(got));
    PayloadSideParts(sent);
    PayloadSideParts(got);
    StreamLength(sent[4..8]);
    StreamLength(sent[HEADER_SIZE + 2..]);
    XorConcat(c, a + (p + f), c, b + (p + g));
    XorConcat(a, p + f, b, p + g);
    XorConcat(p, f, p, g);
    XorSame(c);
    XorSame(p);
  }

  lemma OneByteParts(data: seq<bv8>)
    requires |data| == HEADER_SIZE + 1
    ensures CodeWord(data) == StreamBits(data[4..8]) + (Of(Lead(data))[..8] + Of(ReceivedCrc(data)))
    ensures Of(Lead(data))[8..] == Bits(0)
  {
    var d := data[HEADER_SIZE];
    assert data[HEADER_SIZE..] == [d];
    assert [d][..0] == [];
    CodeEnd(data, data[4..8] + [d]);
    StreamConcat(data[4..8], [d]);
    assert StreamBits([d]) == [] + Bits(d) == Bits(d);
    WordBits(0, d);
    ConcatAssociates(StreamBits(data[4..8]), Bits(d), Of(ReceivedCrc(data)));
  }

  lemma OneByteFlips(sent: seq<bv8>, got: seq<bv8>)
    requires |sent| == |got| == HEADER_SIZE + 1 && sent[4..8] == got[4..8]
    ensures var a := Xor(Of(Lead(sent)), Of(Lead(got)));
            && Flips(sent, got) == Zeros(32) + (a[..8] + Xor(Of(ReceivedCrc(sent)), Of(ReceivedCrc(got))))
            && a[8..] == Zeros(8)
  {
    var c, a, b := StreamBits(sent[4..8]), Of(Lead(sent)), Of(Lead(got));
    var f, g := Of(ReceivedCrc(sent)), Of(ReceivedCrc(got));
    OneByteParts(sent);
    OneByteParts(got);
    StreamLength(sent[4..8]);
    XorConcat(c, a[..8] + f, c, b[..8] + g);
    XorConcat(a[..8], f, b[..8], g);
    XorSame(c);
    assert Xor(a, b)[..8] == XorBits(a[..8], b[..8]);
    forall i | 8 <= i < 16 ensures !Xor(a, b)[i] {
      assert a[i] == a[8..][i - 8] && b[i] == b[8..][i - 8];
    }
  }

  lemma LongPayloadIff(cfg: Config, sent: seq<bv8>, got: seq<bv8>, n: nat)
    requires |sent| == |got| > HEADER_SIZE + 1 && CrcAccepts(cfg, sent) && n == 8 * (|sent| - HEADER_SIZE)
    requires sent[4..8] == got[4..8] && sent[HEADER_SIZE + 2..] == got[HEADER_SIZE + 2..]
    ensures CrcAccepts(cfg, got) <==>
            Xor(Of(ReceivedCrc(sent)), Of(ReceivedCrc(got))) == CRC16.Pow(n, Xor(Of(Lead(sent)), Of(Lead(got))))
  {
    var a, c := Xor(Of(Lead(sent)), Of(Lead(got))), Xor(Of(ReceivedCrc(sent)), Of(ReceivedCrc(got)));
    AcceptedIffFlipsCancel(cfg, sent, got);
    PayloadSideFlips(sent, got);
    TwoWordsCancelIff(32, a, n - 16, c);
    CRC16.PowAdd(n - 16, 16, a);
  }

  lemma OneByteIff(cfg: Config, sent: seq<bv8>, got: seq<bv8>)
    requires |sent| == |got| == HEADER_SIZE + 1 && CrcAccepts(cfg, sent) && sent[4..8] == got[4..8]
    ensures CrcAccepts(cfg, got) <==>
            Xor(Of(ReceivedCrc(sent)), Of(ReceivedCrc(got))) == CRC16.Pow(8, Xor(Of(Lead(sent)), Of(Lead(got))))
  {
    var a, c := Xor(Of(Lead(sent)), Of(Lead(got))), Xor(Of(ReceivedCrc(sent)), Of(ReceivedCrc(got)));
    AcceptedIffFlipsCancel(cfg, sent, got);
    OneByteFlips(sent, got);
    HalfWordCancelsIff(32, a, c);
  }

  /** When a change of bytes 6-9 goes unnoticed: the CRC field changed by what the change of bytes 6 and 7 has
      become after the payload. */
  predicate CounterSideMissed(sent: seq<bv8>, got: seq<bv8>)
    requires |sent| == |got| >= HEADER_SIZE
  {
    Xor(Of(ReceivedCrc(sent)), Of(ReceivedCrc(got)))
    == CRC16.Pow(8 * (|sent| - HEADER_SIZE) + 16, Xor(Of(CounterTail(sent)), Of(CounterTail(got))))
  }

  /** When a change of bytes 8-11 goes unnoticed: likewise for the first two payload bytes. */
  predicate PayloadSideMissed(sent: seq<bv8>, got: seq<bv8>)
    requires |sent| == |got| > HEADER_SIZE
  {
    Xor(Of(ReceivedCrc(sent)), Of(ReceivedCrc(got)))
    == CRC16.Pow(8 * (|sent| - HEADER_SIZE), Xor(Of(Lead(sent)), Of(Lead(got))))
  }

  lemma PayloadSide(cfg: Config, sent: seq<bv8>, got: seq<bv8>)
    requires |sent| == |got| > HEADER_SIZE && CrcAccepts(cfg, sent) && sent[4..8] == got[4..8]
    requires |sent| > HEADER_SIZE + 1 ==> sent[HEADER_SIZE + 2..] == got[HEADER_SIZE + 2..]
    ensures CrcAccepts(cfg, got) <==> PayloadSideMissed(sent, got)
  {
    var n := 8 * (|sent| - HEADER_SIZE);
    if |sent| == HEADER_SIZE + 1 {
      OneByteIff(cfg, sent, got);
    } else {
      LongPayloadIff(cfg, sent, got, n);
    }
  }

  /** The bytes a burst does not touch. */
  lemma Untouched(a: seq<bv8>, b: seq<bv8>, at: nat, width: nat, lo: nat, hi: nat)
    requires |a| == |b| && width <= 16 && WithinBurst(WireFlips(a, b), at, width) && lo <= hi <= |a|
    requires 8 * hi <= at || at + width <= 8 * lo
    ensures a[lo..hi] == b[lo..hi]
  {
    StreamLength(a);
    forall k | lo <= k < hi ensures a[k] == b[k] {
      Unchanged(a, b, k);
    }
  }

  /** When the check misses a burst: the caller compares the two frames and turns the register over the payload
      length. */
  predicate Missed(sent: seq<bv8>, got: seq<bv8>, at: nat, width: nat)
    requires |sent| == |got| >= HEADER_SIZE && at + width <= 8 * |sent|
  {
    if InOnePiece(at, width) then sent[4..] == got[4..]
    else if at < 64 then CounterSideMissed(sent, got)
    else PayloadSideMissed(sent, got)
  }

  /** Main result. A burst of at most 16 bits, anywhere in a frame of any length: it is rejected exactly unless it
      is missed. Within one piece nothing from byte 4 on is missed. */
  lemma WireBurstRejectedIff(cfg: Config, sent: seq<bv8>, got: seq<bv8>, at: nat, width: nat)
    requires |sent| == |got| >= HEADER_SIZE && CrcAccepts(cfg, sent)
    requires width <= 16 && at + width <= 8 * |sent| && WithinBurst(WireFlips(sent, got), at, width)
    ensures Rejects(cfg, got) <==> !Missed(sent, got, at, width)
  {
    RejectsIff(cfg, got);
    if InOnePiece(at, width) {
      WireBurstInOnePiece(cfg, sent, got, at, width);
    } else if at < 64 {
      Untouched(sent, got, at, width, 4, 6);
      Untouched(sent, got, at, width, HEADER_SIZE, |sent|);
      assert sent[HEADER_SIZE..] == sent[HEADER_SIZE..|sent|] && got[HEADER_SIZE..] == got[HEADER_SIZE..|got|];
      CounterSideIff(cfg, sent, got, 8 * (|sent| - HEADER_SIZE));
    } else {
      Untouched(sent, got, at, width, 4, 8);
      if |sent| > HEADER_SIZE + 1 {
        Untouched(sent, got, at, width, HEADER_SIZE + 2, |sent|);
        assert sent[HEADER_SIZE + 2..] == sent[HEADER_SIZE + 2..|sent|];
        assert got[HEADER_SIZE + 2..] == got[HEADER_SIZE + 2..|got|];
      }
      PayloadSide(cfg, sent, got);
    }
  }

  lemma FirstTurns(c: bv16, n: nat)
    requires n == 8 && c == 0x0089
    ensures Turns(n, c) == 0x8900
  {
    assert Turns(n - 8, c) == c;
    assert Turns(n - 6, c) == 0x0224;
    assert Turns(n - 4, c) == 0x0890;
    assert Turns(n - 2, c) == 0x2240;
  }

  lemma LastTurns(c: bv16, n: nat)
    requires n == 8 && c == 0x8900
    ensures Turns(n, c) == 0x00A1
  {
    assert Turns(n - 8, c) == c;
    assert Turns(n - 7, c) == 0x0221;
    assert Turns(n - 6, c) == 0x0442;
    assert Turns(n - 4, c) == 0x1108;
    assert Turns(n - 2, c) == 0x4420;
    assert Turns(n - 1, c) == 0x8840;
  }

  lemma {:induction false} TurnsAdd(m: nat, n: nat, c: bv16)
    ensures Turns(m + n, c) == Turns(m, Turns(n, c))
    decreases m
  {
    if m > 0 {
      TurnsAdd(m - 1, n, c);
    }
  }

  lemma ChangedBytes(a: bv8, b: bv8, c: bv8, d: bv8)
    ensures FromLe16(a, b) ^ FromLe16(a ^ 0x89, b) == 0x0089
    ensures FromLe16(c, d) ^ FromLe16(c ^ 0xA1, d) == 0x00A1
  {
  }

  lemma PassingChange(n: nat)
    requires n == 16
    ensures Turns(n, 0x0089) == 0x00A1
  {
    TurnsAdd(n - 8, n - 8, 0x0089);
    FirstTurns(0x0089, n - 8);
    LastTurns(0x8900, n - 8);
  }

  lemma PassingWords(a: bv16, b: bv16, c: bv16, d: bv16)
    requires a ^ b == 0x00A1 && c ^ d == 0x0089
    ensures Xor(Of(a), Of(b)) == CRC16.Pow(16, Xor(Of(c), Of(d)))
  {
    PassingChange(16);
    OnAllWords(16, a, b, c, d);
  }

  /** Frames that differ in bytes 7 and 8 only. */
  lemma WithinTwoBytes(a: seq<bv8>, b: seq<bv8>)
    requires |a| == |b| == HEADER_SIZE && forall k :: 0 <= k < HEADER_SIZE && k != 7 && k != 8 ==> a[k] == b[k]
    ensures WithinBurst(WireFlips(a, b), 56, 16)
  {
    StreamLength(a);
    forall i | 0 <= i < 80 && !(56 <= i < 72) ensures !WireFlips(a, b)[i] {
      StreamAt(a, i / 8, i % 8);
      StreamAt(b, i / 8, i % 8);
    }
  }

  lemma NotSame(a: bv8)
    ensures a ^ 0x89 != a
  {
  }

  /** Such bursts exist: in every protected frame without payload, a change within bytes 7 and 8, 16 consecutive
      bits, that the check accepts. */
  lemma BurstCanPass(cfg: Config, sent: seq<bv8>, x: bv8, y: bv8)
    requires |sent| == HEADER_SIZE && CrcAccepts(cfg, sent) && x == sent[7] ^ 0x89 && y == sent[8] ^ 0xA1
    ensures var got := sent[7 := x][8 := y];
            got != sent && WithinBurst(WireFlips(sent, got), 56, 16) && CrcAccepts(cfg, got)
  {
    var got := sent[7 := x][8 := y];
    WithinTwoBytes(sent, got);
    NotSame(sent[7]);
    assert got[7] == x;
    PassingFields(sent, got);
    CounterSideIff(cfg, sent, got, 0);
  }

  lemma PassingFields(sent: seq<bv8>, got: seq<bv8>)
    requires |sent| == |got| == HEADER_SIZE && got[6] == sent[6] && got[9] == sent[9]
    requires got[7] == sent[7] ^ 0x89 && got[8] == sent[8] ^ 0xA1
    ensures Xor(Of(ReceivedCrc(sent)), Of(ReceivedCrc(got)))
            == CRC16.Pow(16, Xor(Of(CounterTail(sent)), Of(CounterTail(got))))
  {
    ChangedBytes(sent[7], sent[6], sent[8], sent[9]);
    PassingWords(ReceivedCrc(sent), ReceivedCrc(got), CounterTail(sent), CounterTail(got));
  }
}
