/** End-to-end protection (src/safety/mod.rs): the 10-byte header, the sender's counter and the receiver's checks. */
module Safety {
  import opened Wrappers
  import opened CrcRegister
  import opened Crc16

  const HEADER_SIZE := 10
  const COUNTER_MODULUS := 0x1_0000_0000

  type u32 = n: nat | n < COUNTER_MODULUS

  datatype Config = Config(dataId: bv16, sourceId: bv16)

  datatype ErrorKind = CrcMismatch | SequenceGap | HeaderTooShort

  datatype E2EError = E2EError(kind: ErrorKind, counter: u32)

  type UnwrapResult = Result<seq<bv8>, E2EError>

  // ---------------------------------------------------------------------------
  // Little-endian fields
  // ---------------------------------------------------------------------------

  function ToLe16(x: bv16): seq<bv8> { [(x & 0xFF) as bv8, (x >> 8) as bv8] }

  function FromLe16(lo: bv8, hi: bv8): bv16 { (hi as bv16 << 8) | lo as bv16 }

  /** Counting up to a byte. */
  function Counted(n: int): (b: bv8)
    requires 0 <= n < 256
    ensures b as int == n
    decreases n
  {
    if n == 0 then 0 else Counted(n - 1) + 1
  }

  lemma ByteOfValue(b: bv8)
    ensures (b as int) as bv8 == b
  {
  }

  function Byte(n: int): (b: bv8)
    requires 0 <= n < 256
    ensures b as int == n
  {
    ByteOfValue(Counted(n));
    n as bv8
  }

  function ToLe32(n: u32): seq<bv8> {
    [Byte(n % 256), Byte(n / 256 % 256), Byte(n / 65536 % 256), Byte(n / 16777216)]
  }

  function FromLe32(b: seq<bv8>): u32
    requires |b| == 4
  {
    Compose(b[0] as int, b[1] as int, b[2] as int, b[3] as int)
  }

  function Compose(a: int, b: int, c: int, d: int): u32
    requires 0 <= a < 256 && 0 <= b < 256 && 0 <= c < 256 && 0 <= d < 256
  {
    a + 256 * b + 65536 * c + 16777216 * d
  }

  lemma Le16RoundTrip(x: bv16)
    ensures FromLe16(ToLe16(x)[0], ToLe16(x)[1]) == x
  {
  }

  lemma Digits(n: u32)
    ensures Compose(n % 256, n / 256 % 256, n / 65536 % 256, n / 16777216) == n
  {
    var q := n / 256;
    var t := q / 256;
    assert n / 65536 == t && n / 16777216 == t / 256;
    assert n == 256 * q + n % 256 && q == 256 * t + q % 256 && t == 256 * (t / 256) + t % 256;
  }

  lemma Le32RoundTrip(n: u32)
    ensures FromLe32(ToLe32(n)) == n
  {
    Digits(n);
  }

  lemma ComposeDigits(a: int, b: int, c: int, d: int)
    requires 0 <= a < 256 && 0 <= b < 256 && 0 <= c < 256 && 0 <= d < 256
    ensures var n := Compose(a, b, c, d);
            n % 256 == a && n / 256 % 256 == b && n / 65536 % 256 == c && n / 16777216 == d
  {
    var n := Compose(a, b, c, d);
    assert n / 256 == b + 256 * c + 65536 * d;
    assert n / 65536 == c + 256 * d;
  }

  lemma Le32Injective(b: seq<bv8>)
    requires |b| == 4
    ensures ToLe32(FromLe32(b)) == b
  {
    ComposeDigits(b[0] as int, b[1] as int, b[2] as int, b[3] as int);
    ByteOfValue(b[0]);
    ByteOfValue(b[1]);
    ByteOfValue(b[2]);
    ByteOfValue(b[3]);
  }

  // ---------------------------------------------------------------------------
  // Frames
  // ---------------------------------------------------------------------------

  function IdBytes(cfg: Config): seq<bv8> { ToLe16(cfg.dataId) + ToLe16(cfg.sourceId) }

  /** The CRC covers the first eight header bytes and the payload. */
  function HeaderCrc(cfg: Config, counter: u32, payload: seq<bv8>): bv16 {
    CrcOf(INIT, IdBytes(cfg) + ToLe32(counter) + payload)
  }

  function Header(cfg: Config, counter: u32, payload: seq<bv8>): seq<bv8> {
    IdBytes(cfg) + ToLe32(counter) + ToLe16(HeaderCrc(cfg, counter, payload))
  }

  function Protected(cfg: Config, counter: u32, payload: seq<bv8>): seq<bv8> {
    Header(cfg, counter, payload) + payload
  }

  /** What the receiver reads from a frame. */
  function CounterOf(data: seq<bv8>): u32
    requires |data| >= HEADER_SIZE
  {
    FromLe32(data[4..8])
  }

  function ReceivedCrc(data: seq<bv8>): bv16
    requires |data| >= HEADER_SIZE
  {
    FromLe16(data[8], data[9])
  }

  predicate CrcAccepts(cfg: Config, data: seq<bv8>)
    requires |data| >= HEADER_SIZE
  {
    ReceivedCrc(data) == HeaderCrc(cfg, CounterOf(data), data[HEADER_SIZE..])
  }

  datatype ReceiverState = ReceiverState(lastSeq: u32, first: bool)

  const FRESH := ReceiverState(0, true)

  function Next(counter: u32): u32 { (counter + 1) % COUNTER_MODULUS }

  function Unwrapped(cfg: Config, st: ReceiverState, data: seq<bv8>): (ReceiverState, UnwrapResult) {
    if |data| < HEADER_SIZE then (st, Err(E2EError(HeaderTooShort, 0)))
    else
      var counter := CounterOf(data);
      if !CrcAccepts(cfg, data) then (st, Err(E2EError(CrcMismatch, counter)))
      else if !st.first && counter != Next(st.lastSeq) then
        (st.(lastSeq := counter), Err(E2EError(SequenceGap, counter)))
      else (ReceiverState(counter, false), Ok(data[HEADER_SIZE..]))
  }

  // ---------------------------------------------------------------------------
  // The documented format, byte by byte
  // ---------------------------------------------------------------------------

  /** The little-endian bytes of a 16-bit number. */
  predicate IsLe16(x: bv16, lo: bv8, hi: bv8) { x == (lo as bv16) | ((hi as bv16) << 8) }

  /** The number whose little-endian bytes stand at positions 4 to 7. */
  function CounterAt(f: seq<bv8>): nat
    requires |f| >= 8
  {
    f[4] as int + 0x100 * (f[5] as int) + 0x1_0000 * (f[6] as int) + 0x100_0000 * (f[7] as int)
  }

  /** The bits of these two bytes, low byte first, are the register after sixteen ones and the bits of `covered`. */
  predicate IsCrcOf(covered: seq<bv8>, lo: bv8, hi: bv8) {
    Of((lo as bv16) | ((hi as bv16) << 8)) == CRC16.Residue(AllOnes(), StreamBits(covered))
  }

  /** Bytes 0-1 DataID, 2-3 SourceID, 4-7 counter, 8-9 the CRC over bytes 0-7 and the payload. */
  predicate IsHeader(cfg: Config, counter: nat, payload: seq<bv8>, h: seq<bv8>) {
    && |h| == 10 && IsLe16(cfg.dataId, h[0], h[1]) && IsLe16(cfg.sourceId, h[2], h[3]) && CounterAt(h) == counter
    && IsCrcOf(h[..8] + payload, h[8], h[9])
  }

  lemma Le16Iff(x: bv16, lo: bv8, hi: bv8)
    ensures IsLe16(x, lo, hi) <==> ToLe16(x) == [lo, hi]
  {
    Le16RoundTrip(x);
    Le16Bytes(lo, hi);
  }

  lemma Le16Bytes(lo: bv8, hi: bv8)
    ensures ((FromLe16(lo, hi) & 0xFF) as bv8, (FromLe16(lo, hi) >> 8) as bv8) == (lo, hi)
  {
  }

  lemma CounterIff(n: u32, f: seq<bv8>)
    requires |f| >= 8
    ensures CounterAt(f) == n <==> ToLe32(n) == f[4..8]
  {
    assert CounterAt(f) == FromLe32(f[4..8]);
    Le32RoundTrip(n);
    Le32Injective(f[4..8]);
  }

  lemma CrcIff(covered: seq<bv8>, lo: bv8, hi: bv8)
    ensures IsCrcOf(covered, lo, hi) <==> ToLe16(CrcOf(INIT, covered)) == [lo, hi]
  {
    StartsWithOnes(covered);
    Le16Iff(CrcOf(INIT, covered), lo, hi);
    if IsCrcOf(covered, lo, hi) {
      OfInjective((lo as bv16) | ((hi as bv16) << 8), CrcOf(INIT, covered));
    }
  }

  /** The header is the one of this format. */
  lemma HeaderIff(cfg: Config, counter: u32, payload: seq<bv8>, h: seq<bv8>)
    ensures IsHeader(cfg, counter, payload, h) <==> h == Header(cfg, counter, payload)
  {
    if |h| == 10 {
      Le16Iff(cfg.dataId, h[0], h[1]);
      Le16Iff(cfg.sourceId, h[2], h[3]);
      CounterIff(counter, h);
      CrcIff(h[..8] + payload, h[8], h[9]);
      HeaderParts(h, ToLe16(cfg.dataId), ToLe16(cfg.sourceId), ToLe32(counter),
                  ToLe16(HeaderCrc(cfg, counter, payload)));
    }
  }

  lemma HeaderParts(h: seq<bv8>, a: seq<bv8>, b: seq<bv8>, c: seq<bv8>, d: seq<bv8>)
    requires |h| == 10 && |a| == 2 && |b| == 2 && |c| == 4 && |d| == 2
    ensures h == a + b + c + d <==> h[..8] == a + b + c && d == [h[8], h[9]]
    ensures h[..8] == a + b + c <==> a == [h[0], h[1]] && b == [h[2], h[3]] && c == h[4..8]
  {
    assert h == h[..8] + [h[8], h[9]];
    assert h[..8] == [h[0], h[1]] + [h[2], h[3]] + h[4..8];
  }

  /** The header that belongs to the counter and the payload of `data` ends in the same two bytes. */
  ghost predicate CrcMatches(cfg: Config, data: seq<bv8>)
    requires |data| >= 10
  {
    exists h :: IsHeader(cfg, CounterAt(data), data[10..], h) && h[8..] == data[8..10]
  }

  /** What `unwrap` documents, check by check, and the state it leaves. */
  ghost predicate IsAnswer(cfg: Config, before: ReceiverState, data: seq<bv8>, after: ReceiverState,
                           result: UnwrapResult)
  {
    if |data| < 10 then after == before && result.Err? && result.error.kind.HeaderTooShort? && result.error.counter == 0
    else if !CrcMatches(cfg, data) then
      after == before && result.Err? && result.error.kind.CrcMismatch? && result.error.counter == CounterAt(data)
    else
      && after.lastSeq == CounterAt(data) && !after.first
      && if before.first || CounterAt(data) == (before.lastSeq + 1) % 0x1_0000_0000 then result == Ok(data[10..])
         else result.Err? && result.error.kind.SequenceGap? && result.error.counter == CounterAt(data)
  }

  lemma CrcMatchesIff(cfg: Config, data: seq<bv8>)
    requires |data| >= 10
    ensures CounterAt(data) == CounterOf(data) && (CrcMatches(cfg, data) <==> CrcAccepts(cfg, data))
  {
    var payload := data[10..];
    assert CounterAt(data) == CounterOf(data);
    var own := Header(cfg, CounterOf(data), payload);
    HeaderIff(cfg, CounterOf(data), payload, own);
    assert own[8..] == ToLe16(HeaderCrc(cfg, CounterOf(data), payload)) && data[8..10] == [data[8], data[9]];
    CrcBytesIff(HeaderCrc(cfg, CounterOf(data), payload), data[8], data[9]);
    if CrcMatches(cfg, data) {
      var h :| IsHeader(cfg, CounterAt(data), payload, h) && h[8..] == data[8..10];
      HeaderIff(cfg, CounterOf(data), payload, h);
    }
  }

  lemma CrcBytesIff(crc: bv16, lo: bv8, hi: bv8)
    ensures ToLe16(crc) == [lo, hi] <==> FromLe16(lo, hi) == crc
  {
    Le16RoundTrip(crc);
    Le16Bytes(lo, hi);
  }

  lemma UnwrappedIsAnswer(cfg: Config, before: ReceiverState, data: seq<bv8>)
    ensures var (after, result) := Unwrapped(cfg, before, data); IsAnswer(cfg, before, data, after, result)
  {
    if |data| >= 10 {
      CrcMatchesIff(cfg, data);
    }
  }

  // ---------------------------------------------------------------------------
  // The code
  // ---------------------------------------------------------------------------

  /** Copy the four identifier bytes and the counter into a header. */
  method FillFields(hdr: array<bv8>, cfg: Config, counter: u32)
    requires hdr.Length == HEADER_SIZE
    modifies hdr
    ensures hdr[..8] == IdBytes(cfg) + ToLe32(counter)
  {
    CopyInto(hdr, 0, ToLe16(cfg.dataId));
    CopyInto(hdr, 2, ToLe16(cfg.sourceId));
    assert hdr[..4] == hdr[0..2] + hdr[2..4];
    ghost var ids := hdr[..4];
    CopyInto(hdr, 4, ToLe32(counter));
    assert hdr[..4] == ids;
    assert hdr[..8] == hdr[..4] + hdr[4..8];
  }

  /** `hdr[at..].copy_from_slice(bytes)`. */
  method CopyInto(hdr: array<bv8>, at: nat, bytes: seq<bv8>)
    requires at + |bytes| <= hdr.Length
    modifies hdr
    ensures hdr[at..at + |bytes|] == bytes
    ensures forall i :: 0 <= i < hdr.Length && !(at <= i < at + |bytes|) ==> hdr[i] == old(hdr[i])
  {
    for k := 0 to |bytes|
      invariant forall i :: 0 <= i < k ==> hdr[at + i] == bytes[i]
      invariant forall i :: 0 <= i < hdr.Length && !(at <= i < at + k) ==> hdr[i] == old(hdr[i])
    {
      hdr[at + k] := bytes[k];
    }
  }

  method BuildHeader(cfg: Config, counter: u32, payload: seq<bv8>) returns (hdr: array<bv8>)
    ensures fresh(hdr) && hdr[..] == Header(cfg, counter, payload)
    ensures IsHeader(cfg, counter, payload, hdr[..])
  {
    hdr := new bv8[HEADER_SIZE](_ => 0);
    FillFields(hdr, cfg, counter);
    ghost var fields := hdr[..8];
    var crc := Crc16CcittFalse(hdr[..8]);
    CrcContinues(INIT, fields, payload);
    crc := Crc16Cont(crc, payload);
    CopyInto(hdr, 8, ToLe16(crc));
    assert hdr[..8] == fields;
    assert hdr[..] == hdr[..8] + hdr[8..10];
    HeaderIff(cfg, counter, payload, hdr[..]);
  }

  /** The CRC field of the header the frame should have. */
  method ExpectedCrc(cfg: Config, counter: u32, payload: seq<bv8>) returns (crc: bv16)
    ensures crc == HeaderCrc(cfg, counter, payload)
  {
    var expected := BuildHeader(cfg, counter, payload);
    HeaderEnds(cfg, counter, payload);
    assert expected[..][8] == expected[8] && expected[..][9] == expected[9];
    crc := FromLe16(expected[8], expected[9]);
  }

  lemma HeaderEnds(cfg: Config, counter: u32, payload: seq<bv8>)
    ensures var h := Header(cfg, counter, payload);
            |h| == 10 && FromLe16(h[8], h[9]) == HeaderCrc(cfg, counter, payload)
  {
    Le16RoundTrip(HeaderCrc(cfg, counter, payload));
  }

  class Protector {
    const cfg: Config
    var counter: u32

    constructor (cfg: Config)
      ensures this.cfg == cfg && counter == 0
    {
      this.cfg := cfg;
      counter := 0;
    }

    method Protect(payload: seq<bv8>) returns (out: seq<bv8>)
      modifies this`counter
      ensures out == Protected(cfg, old(counter), payload) && counter == Next(old(counter))
      ensures |out| == 10 + |payload| && out[10..] == payload && IsHeader(cfg, old(counter), payload, out[..10])
      ensures counter == (old(counter) + 1) % 0x1_0000_0000
    {
      var taken := counter;
      counter := (counter + 1) % COUNTER_MODULUS;
      var header := BuildHeader(cfg, taken, payload);
      out := header[..] + payload;
    }
  }

  class Receiver {
    const cfg: Config
    var lastSeq: u32
    var first: bool

    function State(): ReceiverState
      reads this
    {
      ReceiverState(lastSeq, first)
    }

    constructor (cfg: Config)
      ensures this.cfg == cfg && State() == FRESH
    {
      this.cfg := cfg;
      lastSeq, first := 0, true;
    }

    method Unwrap(data: seq<bv8>) returns (result: UnwrapResult)
      modifies this
      ensures (State(), result) == Unwrapped(cfg, old(State()), data)
      ensures IsAnswer(cfg, old(State()), data, State(), result)
    {
      UnwrappedIsAnswer(cfg, State(), data);
      if |data| < HEADER_SIZE {
        return Err(E2EError(HeaderTooShort, 0));
      }
      var counter := FromLe32(data[4..8]);
      var receivedCrc := FromLe16(data[8], data[9]);
      var payload := data[HEADER_SIZE..];
      var expectedCrc := ExpectedCrc(cfg, counter, payload);
      if receivedCrc != expectedCrc {
        return Err(E2EError(CrcMismatch, counter));
      }
      if !first && counter != (lastSeq + 1) % COUNTER_MODULUS {
        lastSeq := counter;
        return Err(E2EError(SequenceGap, counter));
      }
      first := false;
      lastSeq := counter;
      return Ok(payload);
    }
  }

  // ---------------------------------------------------------------------------
  // A stream of frames from one protector
  // ---------------------------------------------------------------------------

  lemma ProtectedFields(cfg: Config, counter: u32, payload: seq<bv8>)
    ensures var f := Protected(cfg, counter, payload);
            |f| >= HEADER_SIZE && CounterOf(f) == counter && f[HEADER_SIZE..] == payload && CrcAccepts(cfg, f)
  {
    var f := Protected(cfg, counter, payload);
    assert f[4..8] == ToLe32(counter);
    assert f[HEADER_SIZE..] == payload;
    Le32RoundTrip(counter);
    Le16RoundTrip(HeaderCrc(cfg, counter, payload));
    assert f[8..10] == ToLe16(HeaderCrc(cfg, counter, payload));
    assert f[8] == f[8..10][0] && f[9] == f[8..10][1];
  }

  /** What reaches the receiver: the protector's `k`-th frame, or something else. */
  datatype Item = Genuine(k: nat) | Noise(data: seq<bv8>)

  predicate IsNoise(cfg: Config, data: seq<bv8>) { |data| < HEADER_SIZE || !CrcAccepts(cfg, data) }

  predicate WellFormed(cfg: Config, payloads: seq<seq<bv8>>, item: Item) {
    match item case Genuine(k) => k < |payloads| case Noise(data) => IsNoise(cfg, data)
  }

  /** The frame of the `k`-th `protect` call. */
  function FrameOf(cfg: Config, payloads: seq<seq<bv8>>, k: nat): seq<bv8>
    requires k < |payloads|
  {
    Protected(cfg, k % COUNTER_MODULUS, payloads[k])
  }

  function Wire(cfg: Config, payloads: seq<seq<bv8>>, item: Item): seq<bv8>
    requires WellFormed(cfg, payloads, item)
  {
    match item case Genuine(k) => FrameOf(cfg, payloads, k) case Noise(data) => data
  }

  function UnwrapAll(cfg: Config, st: ReceiverState, frames: seq<seq<bv8>>): seq<UnwrapResult>
    decreases |frames|
  {
    if frames == [] then []
    else
      var (st', r) := Unwrapped(cfg, st, frames[0]);
      [r] + UnwrapAll(cfg, st', frames[1..])
  }

  function WireAll(cfg: Config, payloads: seq<seq<bv8>>, items: seq<Item>): seq<seq<bv8>>
    requires forall i :: 0 <= i < |items| ==> WellFormed(cfg, payloads, items[i])
  {
    seq(|items|, i requires 0 <= i < |items| => Wire(cfg, payloads, items[i]))
  }

  /** The last genuine frame among `items`. */
  function LastGenuine(items: seq<Item>): Option<nat> {
    if items == [] then None
    else if items[|items| - 1].Genuine? then Some(items[|items| - 1].k)
    else LastGenuine(items[..|items| - 1])
  }

  /** The answer to `item` after `before` was received. */
  ghost predicate Answers(payloads: seq<seq<bv8>>, before: seq<Item>, item: Item, r: UnwrapResult) {
    match item
    case Noise(data) => r.Err? && r.error.kind == if |data| < 10 then HeaderTooShort else CrcMismatch
    case Genuine(k) =>
      && k < |payloads|
      && match LastGenuine(before)
         case None => r == Ok(payloads[k])
         case Some(j) =>
           r == if (k - j) % COUNTER_MODULUS == 1 then Ok(payloads[k])
                else Err(E2EError(SequenceGap, k % COUNTER_MODULUS))
  }

  lemma Successor(j: nat, k: nat)
    ensures k % COUNTER_MODULUS == Next(j % COUNTER_MODULUS) <==> (k - j) % COUNTER_MODULUS == 1
  {
  }

  ghost predicate Remembers(st: ReceiverState, before: seq<Item>) {
    match LastGenuine(before)
    case None => st == FRESH
    case Some(j) => st == ReceiverState(j % COUNTER_MODULUS, false)
  }

  /** What any receiver answers to a frame of the protector, and remembers of it. */
  lemma GenuineUnwrapped(cfg: Config, st: ReceiverState, counter: u32, payload: seq<bv8>)
    ensures Unwrapped(cfg, st, Protected(cfg, counter, payload))
            == (ReceiverState(counter, false),
                if st.first || counter == Next(st.lastSeq) then Ok(payload) else Err(E2EError(SequenceGap, counter)))
  {
    ProtectedFields(cfg, counter, payload);
  }

  lemma NoiseUnwrapped(cfg: Config, st: ReceiverState, data: seq<bv8>)
    requires IsNoise(cfg, data)
    ensures var (st', r) := Unwrapped(cfg, st, data);
            st' == st && r.Err? && r.error.kind == if |data| < 10 then HeaderTooShort else CrcMismatch
  {
  }

  lemma LastGenuineNow(before: seq<Item>, item: Item)
    ensures LastGenuine(before + [item]) == if item.Genuine? then Some(item.k) else LastGenuine(before)
  {
    assert (before + [item])[..|before|] == before;
  }

  lemma OneItem(cfg: Config, payloads: seq<seq<bv8>>, before: seq<Item>, item: Item, st: ReceiverState)
    requires WellFormed(cfg, payloads, item) && Remembers(st, before)
    ensures var (st', r) := Unwrapped(cfg, st, Wire(cfg, payloads, item));
            Answers(payloads, before, item, r) && Remembers(st', before + [item])
  {
    LastGenuineNow(before, item);
    match item {
      case Noise(data) => NoiseUnwrapped(cfg, st, data);
      case Genuine(k) =>
        GenuineUnwrapped(cfg, st, k % COUNTER_MODULUS, payloads[k]);
        if LastGenuine(before).Some? { Successor(LastGenuine(before).value, k); }
    }
  }

  lemma SplitBefore(before: seq<Item>, items: seq<Item>, i: nat)
    requires i < |items|
    ensures before + items[..i] == if i == 0 then before else before + [items[0]] + items[1..][..i - 1]
  {
  }

  lemma {:induction false} StreamFrom(cfg: Config, payloads: seq<seq<bv8>>, before: seq<Item>,
                                       items: seq<Item>, st: ReceiverState)
    requires forall i :: 0 <= i < |items| ==> WellFormed(cfg, payloads, items[i])
    requires Remembers(st, before)
    ensures var rs := UnwrapAll(cfg, st, WireAll(cfg, payloads, items));
            |rs| == |items| && forall i :: 0 <= i < |rs| ==> Answers(payloads, before + items[..i], items[i], rs[i])
    decreases |items|
  {
    if items != [] {
      var frames := WireAll(cfg, payloads, items);
      assert frames[1..] == WireAll(cfg, payloads, items[1..]);
      OneItem(cfg, payloads, before, items[0], st);
      var (st', r) := Unwrapped(cfg, st, frames[0]);
      var tail := UnwrapAll(cfg, st', frames[1..]);
      StreamFrom(cfg, payloads, before + [items[0]], items[1..], st');
      forall i | 0 <= i < |items| ensures Answers(payloads, before + items[..i], items[i], ([r] + tail)[i]) {
        SplitBefore(before, items, i);
        if i > 0 { assert items[1..][i - 1] == items[i] && ([r] + tail)[i] == tail[i - 1]; }
      }
    }
  }

  /** Main result. Whatever order a protector's frames arrive in, however many are lost or repeated and whatever
      junk comes between them: each frame is answered with its payload if it is the first genuine one or if its
      index is one more, modulo 2^32, than that of the genuine frame before it, and with SequenceGap otherwise; junk
      is refused and forgotten. */
  lemma {:induction false} StreamIsChecked(cfg: Config, payloads: seq<seq<bv8>>, items: seq<Item>)
    requires forall i :: 0 <= i < |items| ==> WellFormed(cfg, payloads, items[i])
    ensures var rs := UnwrapAll(cfg, FRESH, WireAll(cfg, payloads, items));
            |rs| == |items| && forall i :: 0 <= i < |rs| ==> Answers(payloads, items[..i], items[i], rs[i])
  {
    StreamFrom(cfg, payloads, [], items, FRESH);
    forall i | 0 <= i < |items| ensures [] + items[..i] == items[..i] {}
  }

  // ---------------------------------------------------------------------------
  // Replays
  // ---------------------------------------------------------------------------

  /** The results of a receiver that starts fresh. */
  function Results(cfg: Config, payloads: seq<seq<bv8>>, items: seq<Item>): seq<UnwrapResult>
    requires forall i :: 0 <= i < |items| ==> WellFormed(cfg, payloads, items[i])
  {
    UnwrapAll(cfg, FRESH, WireAll(cfg, payloads, items))
  }

  lemma {:induction false} LastGenuineExists(items: seq<Item>, j: nat)
    requires j < |items| && items[j].Genuine?
    ensures LastGenuine(items).Some?
    decreases |items|
  {
    if j < |items| - 1 {
      LastGenuineExists(items[..|items| - 1], j);
    }
  }

  /** A frame that was received before is accepted again exactly when the genuine frame before it is the one it
      follows in counter order; in particular never directly after itself. */
  lemma ReplayAcceptedIff(cfg: Config, payloads: seq<seq<bv8>>, items: seq<Item>, j: nat, i: nat)
    requires forall n :: 0 <= n < |items| ==> WellFormed(cfg, payloads, items[n])
    requires j < i < |items| && items[i] == items[j] && items[i].Genuine?
    ensures |Results(cfg, payloads, items)| == |items| && LastGenuine(items[..i]).Some?
    ensures Results(cfg, payloads, items)[i].Ok? <==>
            (items[i].k - LastGenuine(items[..i]).value) % COUNTER_MODULUS == 1
    ensures LastGenuine(items[..i]) == Some(items[i].k) ==> Results(cfg, payloads, items)[i].Err?
  {
    StreamIsChecked(cfg, payloads, items);
    LastGenuineExists(items[..i], j);
    var last, r := LastGenuine(items[..i]).value, Results(cfg, payloads, items)[i];
    GenuineAnswer(payloads, items[..i], items[i].k, last, r);
  }

  lemma GenuineAnswer(payloads: seq<seq<bv8>>, before: seq<Item>, k: nat, last: nat, r: UnwrapResult)
    requires Answers(payloads, before, Genuine(k), r) && LastGenuine(before) == Some(last)
    ensures r.Ok? <==> (k - last) % COUNTER_MODULUS == 1
    ensures last == k ==> r.Err?
  {
  }

  /** The answer to a genuine frame directly after a genuine frame. */
  lemma AfterGenuine(cfg: Config, payloads: seq<seq<bv8>>, items: seq<Item>, i: nat, last: nat, k: nat)
    requires forall n :: 0 <= n < |items| ==> WellFormed(cfg, payloads, items[n])
    requires 0 < i < |items| && items[i - 1] == Genuine(last) && items[i] == Genuine(k)
    ensures |Results(cfg, payloads, items)| == |items| && k < |payloads|
    ensures Results(cfg, payloads, items)[i]
            == if (k - last) % COUNTER_MODULUS == 1 then Ok(payloads[k])
               else Err(E2EError(SequenceGap, k % COUNTER_MODULUS))
  {
    StreamIsChecked(cfg, payloads, items);
    assert WellFormed(cfg, payloads, items[i]);
    assert LastGenuine(items[..i]) == Some(last);
    assert Answers(payloads, items[..i], items[i], Results(cfg, payloads, items)[i]);
  }

  /** Replaying two frames in order: the second is accepted again. */
  lemma ReplayCanPass(cfg: Config, payloads: seq<seq<bv8>>, items: seq<Item>)
    requires |payloads| >= 2 && items == [Genuine(0), Genuine(1), Genuine(0), Genuine(1)]
    ensures forall n :: 0 <= n < |items| ==> WellFormed(cfg, payloads, items[n])
    ensures |Results(cfg, payloads, items)| == 4
    ensures Results(cfg, payloads, items)[1] == Results(cfg, payloads, items)[3] == Ok(payloads[1])
    ensures Results(cfg, payloads, items)[2].Err?
  {
    AfterGenuine(cfg, payloads, items, 1, 0, 1);
    AfterGenuine(cfg, payloads, items, 2, 1, 0);
    AfterGenuine(cfg, payloads, items, 3, 0, 1);
  }
}
