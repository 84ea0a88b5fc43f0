/** Signal extraction (src/dbc/mod.rs): two bit-walking loops and the integer slices they compute. */
module Dbc {
  import opened Wrappers
  import opened Bits
  import opened Frames

  /** One more than the largest u64. */
  const U64: nat := 0x1_0000_0000_0000_0000
  const I64: nat := 0x8000_0000_0000_0000

  datatype ByteOrder = LittleEndian | BigEndian

  // ---------------------------------------------------------------------------
  // The data as one number, and the slices
  // ---------------------------------------------------------------------------

  function LeInt(data: seq<Octet>): nat
    decreases |data|
  {
    if data == [] then 0 else data[0] + 256 * LeInt(data[1..])
  }

  function BeInt(data: seq<Octet>): nat
    decreases |data|
  {
    if data == [] then 0 else 256 * BeInt(data[..|data| - 1]) + data[|data| - 1]
  }

  /** Where the Motorola start bit stands when bits are counted from the most significant of the first byte. */
  function MsbPosition(start: nat): nat { 8 * (start / 8) + 7 - start % 8 }

  function Zeros(n: nat): seq<Octet> { seq(n, _ => 0) }

  /** The data, followed by as many zero bytes as the slice may need. */
  function Padded(data: seq<Octet>, start: nat, length: nat): seq<Octet> { data + Zeros(MsbPosition(start) + length) }

  /** The bits below a big-endian slice. */
  function Below(data: seq<Octet>, start: nat, length: nat): nat {
    8 * |Padded(data, start, length)| - MsbPosition(start) - length
  }

  /** The signal as an integer. Little-endian: bit `start` of the data read as one number, and the `length - 1` bits
      above it. Big-endian: the `length` bits from the start bit on, most significant first, with zeros after the
      data. */
  function Slice(data: seq<Octet>, start: nat, length: nat, order: ByteOrder): nat {
    match order
    case LittleEndian => LeInt(data) / Pow2(start) % Pow2(length)
    case BigEndian => BeInt(Padded(data, start, length)) / Pow2(Below(data, start, length)) % Pow2(length)
  }

  // ---------------------------------------------------------------------------
  // Bits of the data
  // ---------------------------------------------------------------------------

  lemma TimesByte(n: nat)
    ensures Up(n, 8) == 256 * n && Pow2(8) == 256
  {
    assert Up(n, 4) == 16 * n;
    assert Pow2(4) == 16;
  }

  lemma LowByte(b: Octet, rest: nat, k: nat)
    requires k < 8
    ensures Bit(b + 256 * rest, k) == Bit(b, k)
  {
    TimesByte(rest);
    SplitLow(b, rest, 8, k);
  }

  lemma HighBytes(b: Octet, rest: nat, k: nat)
    ensures Bit(b + 256 * rest, 8 + k) == Bit(rest, k)
  {
    TimesByte(rest);
    SplitHigh(b, rest, 8, k);
  }

  /** The test in the loops, `byte_idx < data.len() && (data[byte_idx] >> bit_idx) & 1 == 1`. */
  predicate IsSet(data: seq<Octet>, byteIdx: nat, bitIdx: nat) { byteIdx < |data| && Bit(data[byteIdx], bitIdx) == 1 }

  lemma ZeroHasNoBits(k: nat)
    ensures Bit(0, k) == 0
  {
    ShrSmall(0, k);
  }

  lemma {:induction false} LeBits(data: seq<Octet>, byteIdx: nat, bitIdx: nat)
    requires bitIdx < 8
    ensures Bit(LeInt(data), 8 * byteIdx + bitIdx) == 1 <==> IsSet(data, byteIdx, bitIdx)
    decreases |data|
  {
    if data == [] {
      ZeroHasNoBits(8 * byteIdx + bitIdx);
    } else if byteIdx == 0 {
      LowByte(data[0], LeInt(data[1..]), bitIdx);
    } else {
      HighBytes(data[0], LeInt(data[1..]), 8 * (byteIdx - 1) + bitIdx);
      LeBits(data[1..], byteIdx - 1, bitIdx);
    }
  }

  lemma {:induction false} BeBits(data: seq<Octet>, byteIdx: nat, bitIdx: nat)
    requires bitIdx < 8 && byteIdx < |data|
    ensures Bit(BeInt(data), 8 * (|data| - 1 - byteIdx) + bitIdx) == Bit(data[byteIdx], bitIdx)
    decreases |data|
  {
    var last := |data| - 1;
    if byteIdx == last {
      LowByte(data[last], BeInt(data[..last]), bitIdx);
    } else {
      HighBytes(data[last], BeInt(data[..last]), 8 * (last - 1 - byteIdx) + bitIdx);
      BeBits(data[..last], byteIdx, bitIdx);
    }
  }

  /** The bit at MSB-first position 8 * byteIdx + 7 - bitIdx of the padded data is what the walk finds there. */
  lemma PaddedBits(data: seq<Octet>, start: nat, length: nat, byteIdx: nat, bitIdx: nat)
    requires bitIdx < 8 && 8 * byteIdx + 7 - bitIdx < MsbPosition(start) + length
    ensures var padded := Padded(data, start, length);
            && byteIdx < |padded|
            && (Bit(BeInt(padded), 8 * |padded| - 1 - (8 * byteIdx + 7 - bitIdx)) == 1
                <==> IsSet(data, byteIdx, bitIdx))
  {
    var padded := Padded(data, start, length);
    BeBits(padded, byteIdx, bitIdx);
    ZeroHasNoBits(bitIdx);
  }

  // ---------------------------------------------------------------------------
  // Intel: from the lowest bit up
  // ---------------------------------------------------------------------------

  lemma LeStep(data: seq<Octet>, start: nat, i: nat)
    ensures var x := Shr(LeInt(data), start);
            && Low(x, i + 1) == Low(x, i) + (if IsSet(data, (start + i) / 8, (start + i) % 8) then Pow2(i) else 0)
            && Low(x, i) < Pow2(i)
  {
    var x := Shr(LeInt(data), start);
    LowIsSmall(x, i);
    ShrTwice(LeInt(data), start, i);
    LeBits(data, (start + i) / 8, (start + i) % 8);
  }

  lemma Register(k: nat)
    ensures k <= 64 ==> Pow2(k) <= U64
    ensures k >= 64 ==> Pow2(k) >= U64
    ensures k <= 63 ==> Pow2(k) <= I64
    ensures k <= 62 ==> 2 * Pow2(k) <= I64
    ensures k == 63 ==> Pow2(k) == I64
  {
    SixtyFour();
    if k < 64 {
      PowMonotone(k, 63);
    } else {
      PowMonotone(64, k);
    }
    if k <= 62 {
      PowMonotone(k + 1, 63);
    }
  }

  lemma Doubled(k: nat, m: nat, p: nat)
    requires Pow2(k) == p && m == 2 * k
    ensures Pow2(m) == p * p
  {
    PowAdd(k, k);
  }

  lemma Thirty2(k: nat)
    requires k == 32
    ensures Pow2(k) == 0x1_0000_0000
  {
    assert Pow2(4) == 16;
    Doubled(4, k / 4, 16);
    Doubled(k / 4, k / 2, 0x100);
    Doubled(k / 2, k, 0x1_0000);
  }

  lemma SixtyFour()
    ensures Pow2(64) == U64 && Pow2(63) == I64
  {
    Thirty2(32);
    Doubled(32, 64, 0x1_0000_0000);
  }

  lemma LeTooWide(x: nat, i: nat, length: nat)
    requires 64 <= i < length && Low(x, i + 1) >= Pow2(i)
    ensures Low(x, length) >= U64
  {
    LowGrows(x, i + 1, length);
    Register(i);
  }

  /** The Intel branch.  A set bit beyond the 64-bit register overflows the shift. */
  method ExtractLe(data: seq<Octet>, start: nat, length: nat) returns (r: Option<nat>)
    ensures var slice := Low(Shr(LeInt(data), start), length); r == if slice < U64 then Some(slice) else None
  {
    ghost var x := Shr(LeInt(data), start);
    var raw := 0;
    for i := 0 to length
      invariant raw == Low(x, i) && raw < U64
    {
      var bit := start + i;
      var byteIdx, bitIdx := bit / 8, bit % 8;
      LeStep(data, start, i);
      if byteIdx < |data| && Bit(data[byteIdx], bitIdx) == 1 {
        if i >= 64 {
          LeTooWide(x, i, length);
          return None;
        }
        OrAbove(raw, i);
        raw := OrBit(raw, i);
        LowIsSmall(x, i + 1);
        Register(i + 1);
      }
    }
    return Some(raw);
  }

  // ---------------------------------------------------------------------------
  // Motorola: from the highest bit down
  // ---------------------------------------------------------------------------

  /** The number made of the first i bits below position `top` of n, highest first. */
  function Top(n: nat, top: nat, i: nat): nat
    requires i <= top
    decreases i
  {
    if i == 0 then 0 else 2 * Top(n, top, i - 1) + Bit(n, top - i)
  }

  lemma {:induction false} TopIsSlice(n: nat, top: nat, i: nat)
    requires i <= top
    ensures Top(n, top, i) == Low(Shr(n, top - i), i)
    decreases i
  {
    if i > 0 {
      TopIsSlice(n, top, i - 1);
      LowFirst(Shr(n, top - i), i);
    }
  }

  lemma {:induction false} TopGrows(n: nat, top: nat, i: nat, length: nat)
    requires i < length <= top && Bit(n, top - 1 - i) == 1
    ensures Top(n, top, length) >= Pow2(length - 1 - i)
    decreases length
  {
    if i < length - 1 {
      TopGrows(n, top, i, length - 1);
    }
  }

  lemma BeTooWide(n: nat, top: nat, i: nat, length: nat)
    requires i < length <= top && Bit(n, top - 1 - i) == 1 && length - 1 - i >= 64
    ensures Top(n, top, length) >= U64
  {
    TopGrows(n, top, i, length);
    Register(length - 1 - i);
  }

  /** One step on the register: `y` is the slice so far, `left` the bits still to come after this one. */
  lemma BeRegister(y: nat, left: nat)
    requires Up(y, left + 1) < U64
    ensures OrBit(Up(y, left + 1), left) == Up(2 * y + 1, left) && Up(y, left + 1) == Up(2 * y, left)
    ensures left < 64 ==> Up(2 * y + 1, left) < U64
  {
    OrBelow(y, left);
    if left < 64 {
      SixtyFour();
      UpBound(y, left + 1, 63 - left);
      UpBound(2 * y + 1, left, 64 - left);
    }
  }

  /** One step of the walk: a clear bit changes nothing, a set one is or-ed in if the register has room for it. */
  lemma BeStep(n: nat, top: nat, i: nat, length: nat)
    requires i < length <= top && Up(Top(n, top, i), length - i) < U64
    ensures var left := length - 1 - i;
            var raw, next := Up(Top(n, top, i), length - i), Up(Top(n, top, i + 1), left);
            if Bit(n, top - 1 - i) != 1 then next == raw
            else if left >= 64 then Top(n, top, length) >= U64
            else next == OrBit(raw, left) && next < U64
  {
    BeRegister(Top(n, top, i), length - 1 - i);
    if Bit(n, top - 1 - i) == 1 && length - 1 - i >= 64 {
      BeTooWide(n, top, i, length);
    }
  }

  /** The Motorola branch, the sawtooth walk: down to bit 0 of a byte, then on to bit 7 of the next. */
  method ExtractBe(data: seq<Octet>, start: nat, length: nat) returns (r: Option<nat>)
    ensures var padded := Padded(data, start, length);
            var slice := Top(BeInt(padded), 8 * |padded| - MsbPosition(start), length);
            r == if slice < U64 then Some(slice) else None
  {
    ghost var n, top := BeInt(Padded(data, start, length)), 8 * |Padded(data, start, length)| - MsbPosition(start);
    var raw := 0;
    var byteIdx: nat, bitIdx: nat := start / 8, start % 8;
    ZeroUp(length);
    for i := 0 to length
      invariant bitIdx < 8 && 8 * byteIdx + 7 - bitIdx == MsbPosition(start) + i
      invariant raw == Up(Top(n, top, i), length - i) && raw < U64
    {
      PaddedBits(data, start, length, byteIdx, bitIdx);
      BeStep(n, top, i, length);
      if byteIdx < |data| && Bit(data[byteIdx], bitIdx) == 1 {
        if length - 1 - i >= 64 {
          return None;
        }
        raw := OrBit(raw, length - 1 - i);
      }
      if bitIdx == 0 {
        bitIdx := 7;
        byteIdx := byteIdx + 1;
      } else {
        bitIdx := bitIdx - 1;
      }
    }
    return Some(raw);
  }

  lemma {:induction false} ZeroUp(k: nat)
    ensures Up(0, k) == 0
    decreases k
  {
    if k > 0 {
      ZeroUp(k - 1);
    }
  }

  // ---------------------------------------------------------------------------
  // Both
  // ---------------------------------------------------------------------------

  /** Digit `i` of a signal, as the two formats place it. Intel: the digits go up from the start bit, in each byte from
      bit 0. Motorola: the highest digit is at the start bit, the lower ones follow down to bit 0 of its byte and from
      bit 7 of the next. Bytes after the data are zero. */
  predicate SignalBit(data: seq<Octet>, start: nat, length: nat, order: ByteOrder, i: nat)
    requires i < length
  {
    match order
    case LittleEndian => var at := start + i; at / 8 < |data| && HasBit(data[at / 8], at % 8)
    case BigEndian =>
      var at := 8 * (start / 8) + (7 - start % 8) + (length - 1 - i);
      at / 8 < |data| && HasBit(data[at / 8], 7 - at % 8)
  }

  lemma SliceIsSignal(data: seq<Octet>, start: nat, length: nat, order: ByteOrder, i: nat)
    requires i < length
    ensures HasBit(Slice(data, start, length, order), i) <==> SignalBit(data, start, length, order, i)
  {
    match order {
      case LittleEndian =>
        var at := start + i;
        SliceBit(LeInt(data), start, length, i);
        HasBitIs(LeInt(data), at);
        LeBits(data, at / 8, at % 8);
        ByteBit(data, at / 8, at % 8);
      case BigEndian =>
        var at := MsbPosition(start) + (length - 1 - i);
        var padded := Padded(data, start, length);
        SliceBit(BeInt(padded), Below(data, start, length), length, i);
        PaddedBits(data, start, length, at / 8, 7 - at % 8);
        HasBitIs(BeInt(padded), 8 * |padded| - 1 - at);
        ByteBit(data, at / 8, 7 - at % 8);
    }
  }

  lemma ByteBit(data: seq<Octet>, byteIdx: nat, bitIdx: nat)
    ensures IsSet(data, byteIdx, bitIdx) <==> byteIdx < |data| && HasBit(data[byteIdx], bitIdx)
  {
    if byteIdx < |data| {
      HasBitIs(data[byteIdx], bitIdx);
    }
  }

  /** A slice needs more than 64 bits exactly when a digit from 64 on is set. */
  lemma TooWideIff(data: seq<Octet>, start: nat, length: nat, order: ByteOrder)
    ensures Slice(data, start, length, order) >= U64
            <==> exists i :: 64 <= i < length && SignalBit(data, start, length, order, i)
  {
    var slice := Slice(data, start, length, order);
    SixtyFour();
    if slice >= U64 {
      var i := HighestBit(slice);
      if i < 64 {
        PowMonotone(i + 1, 64);
      }
      if i >= length {
        PowMonotone(length, i);
        SliceIsSmall(data, start, length, order);
        HasBitIs(slice, i);
        ShrSmall(slice, i);
      } else {
        SliceIsSignal(data, start, length, order, i);
      }
    } else {
      forall i | 64 <= i < length ensures !SignalBit(data, start, length, order, i) {
        SliceIsSignal(data, start, length, order, i);
        PowMonotone(64, i);
        HasBitIs(slice, i);
        ShrSmall(slice, i);
      }
    }
  }

  /** Main result. Whatever the data, the start bit and the length, each walk computes its slice, digit by digit the
      signal; it fails exactly when the slice does not fit a u64. */
  method ExtractRaw(data: seq<Octet>, start: nat, length: nat, order: ByteOrder) returns (r: Option<nat>)
    ensures var slice := Slice(data, start, length, order); r == if slice < U64 then Some(slice) else None
    ensures r.None? <==> exists i :: 64 <= i < length && SignalBit(data, start, length, order, i)
    ensures r.Some? ==>
              && r.value < Pow2(length)
              && forall i :: 0 <= i < length ==> (HasBit(r.value, i) <==> SignalBit(data, start, length, order, i))
  {
    TooWideIff(data, start, length, order);
    SliceIsSmall(data, start, length, order);
    forall i | 0 <= i < length
      ensures HasBit(Slice(data, start, length, order), i) <==> SignalBit(data, start, length, order, i)
    {
      SliceIsSignal(data, start, length, order, i);
    }
    match order {
      case LittleEndian =>
        r := ExtractLe(data, start, length);
        ShiftIsDivision(LeInt(data), start);
        ShiftIsDivision(Shr(LeInt(data), start), length);
      case BigEndian =>
        r := ExtractBe(data, start, length);
        ghost var n, below := BeInt(Padded(data, start, length)), Below(data, start, length);
        TopIsSlice(n, below + length, length);
        ShiftIsDivision(n, below);
        ShiftIsDivision(Shr(n, below), length);
    }
  }

  // ---------------------------------------------------------------------------
  // Sign extension and scaling
  // ---------------------------------------------------------------------------

  /** The n-bit number `raw` read as two's complement. */
  predicate TwosComplement(v: int, raw: nat, n: nat)
    requires n > 0
  {
    var half: int := Pow2(n - 1);
    -half <= v < half && (v == raw || v == raw - Pow2(n))
  }

  /** Each raw value has exactly one reading. */
  lemma OneReading(v: int, u: int, raw: nat, n: nat)
    requires n > 0 && TwosComplement(v, raw, n) && TwosComplement(u, raw, n)
    ensures v == u
  {
  }

  /** What a signal must have for its sign bit to be read and removed without overflow: the code's own guard, were
      it to have one. */
  predicate Extendable(raw: nat, bits: nat) { 1 <= bits <= 62 || (63 <= bits <= 64 && raw < Pow2(bits - 1)) }

  /** The sign extension of `decode_signal`: the shifts and the subtraction are 64-bit and fail on overflow. */
  method SignExtend(raw: nat, bits: nat) returns (r: Option<int>)
    requires raw < U64 && raw < Pow2(bits)
    ensures r.Some? <==> Extendable(raw, bits)
    ensures r.Some? ==> TwosComplement(r.value, raw, bits)
  {
    if bits == 0 || bits > 64 {
      return None;
    }
    SignBit(raw, bits);
    if Bit(raw, bits - 1) == 1 {
      if bits == 64 {
        return None;
      }
      var shifted: int := if bits == 63 then 0 - I64 else Pow2(bits);
      if raw - shifted >= I64 {
        return None;
      }
      return Some(raw - shifted);
    }
    return Some(raw);
  }

  lemma SignBit(raw: nat, bits: nat)
    requires 0 < bits <= 64 && raw < Pow2(bits)
    ensures Bit(raw, bits - 1) == 1 <==> raw >= Pow2(bits - 1)
    ensures Pow2(bits) == 2 * Pow2(bits - 1)
  {
    HighAndLow(raw, bits - 1);
    LowIsSmall(raw, bits - 1);
    ShrSmall(raw, bits);
    AtLeast(Pow2(bits - 1), Shr(raw, bits - 1), Low(raw, bits - 1));
  }

  lemma AtLeast(p: nat, high: nat, low: nat)
    requires high <= 1 && low < p
    ensures high == 1 <==> p * high + low >= p
  {
  }

  datatype Signal = Signal(startBit: Octet, length: Octet, order: ByteOrder, signed: bool, factor: real, offset: real)

  /** The physical value of an integer. */
  function Scaled(sig: Signal, v: int): real { v as real * sig.factor + sig.offset }

  /** The physical value of the two's complement reading. */
  ghost predicate IsSignedValue(sig: Signal, raw: nat, x: real)
    requires sig.length > 0
  {
    exists v :: TwosComplement(v, raw, sig.length) && x == v as real * sig.factor + sig.offset
  }

  lemma SignedValue(sig: Signal, raw: nat, v: int)
    requires sig.length > 0 && TwosComplement(v, raw, sig.length)
    ensures IsSignedValue(sig, raw, Scaled(sig, v))
  {
  }

  /** `decode_signal`. */
  method DecodeSignal(sig: Signal, data: seq<Octet>) returns (r: Option<real>)
    ensures var raw := Slice(data, sig.startBit, sig.length, sig.order);
            && (r.Some? <==> raw < U64 && (sig.signed ==> Extendable(raw, sig.length)))
            && (r.Some? && !sig.signed ==> r.value == raw as real * sig.factor + sig.offset)
            && (r.Some? && sig.signed ==> IsSignedValue(sig, raw, r.value))
  {
    var raw := ExtractRaw(data, sig.startBit, sig.length, sig.order);
    match raw {
      case None => return None;
      case Some(n) =>
        if !sig.signed {
          return Some(Scaled(sig, n));
        }
        SliceIsSmall(data, sig.startBit, sig.length, sig.order);
        var v := SignExtend(n, sig.length);
        if v == None {
          return None;
        }
        SignedValue(sig, n, v.value);
        return Some(Scaled(sig, v.value));
    }
  }

  lemma SliceIsSmall(data: seq<Octet>, start: nat, length: nat, order: ByteOrder)
    ensures Slice(data, start, length, order) < Pow2(length)
  {
  }
}
