/** CRC-16/CCITT-FALSE on machine words (src/crc.rs, src/safety/mod.rs): the nested loops, and the register they
    drive. */
module Crc16 {
  import opened CrcRegister

  const POLYNOMIAL: bv16 := 0x1021
  const INIT: bv16 := 0xFFFF

  /** One turn of the inner loop. */
  function Turn(crc: bv16): bv16 {
    if crc & 0x8000 != 0 then (crc << 1) ^ POLYNOMIAL else crc << 1
  }

  /** The mask of the `i`-th bit from the top. */
  function Mask(i: nat): bv16 {
    if i == 0 then 0x8000 else if i == 1 then 0x4000 else if i == 2 then 0x2000 else if i == 3 then 0x1000 else
    if i == 4 then 0x0800 else if i == 5 then 0x0400 else if i == 6 then 0x0200 else if i == 7 then 0x0100 else
    if i == 8 then 0x0080 else if i == 9 then 0x0040 else if i == 10 then 0x0020 else if i == 11 then 0x0010 else
    if i == 12 then 0x0008 else if i == 13 then 0x0004 else if i == 14 then 0x0002 else if i == 15 then 0x0001 else
    0
  }

  function Bit(c: bv16, m: bv16): bool { c & m != 0 }

  /** The bits of a word. */
  function Of(c: bv16): Word { seq(16, i requires 0 <= i < 16 => Bit(c, Mask(i))) }

  lemma MaskIsSingle(i: nat)
    ensures Mask(i) & (Mask(i) - 1) == 0
  {
  }

  lemma MaskNext(i: nat)
    ensures Mask(i) >> 1 == Mask(i + 1)
  {
  }

  lemma BitXor(a: bv16, b: bv16, m: bv16)
    requires m & (m - 1) == 0
    ensures Bit(a ^ b, m) == (Bit(a, m) != Bit(b, m))
  {
  }

  lemma BitLeft(c: bv16, m: bv16)
    ensures Bit(c << 1, m) == Bit(c, m >> 1)
  {
  }

  lemma OfXor(a: bv16, b: bv16)
    ensures Of(a ^ b) == Xor(Of(a), Of(b))
  {
    forall i | 0 <= i < 16 ensures Of(a ^ b)[i] == (Of(a)[i] != Of(b)[i]) {
      MaskIsSingle(i);
      BitXor(a, b, Mask(i));
    }
  }

  lemma OfLeftAt(c: bv16, i: nat)
    requires i < 16
    ensures Bit(c << 1, Mask(i)) == Bit(c, Mask(i + 1))
  {
    BitLeft(c, Mask(i));
    MaskNext(i);
  }

  lemma OfLeft(c: bv16)
    ensures Of(c << 1) == Left(Of(c))
  {
    NoBit(c);
    forall i | 0 <= i < 16 ensures Of(c << 1)[i] == Left(Of(c))[i] { OfLeftAt(c, i); }
  }

  lemma NoBit(c: bv16)
    ensures !Bit(c, 0)
  {
  }

  lemma OfPolynomial()
    ensures Of(POLYNOMIAL) == POLY
  {
  }

  /** A turn of the loop is a step of the register. */
  lemma OfTurn(c: bv16)
    ensures Of(Turn(c)) == Shift(Of(c))
  {
    OfLeft(c);
    if c & 0x8000 != 0 {
      OfXor(c << 1, POLYNOMIAL);
      OfPolynomial();
    }
  }

  lemma ClearWord(z: bv16)
    requires !Bit(z, 0x8000) && !Bit(z, 0x4000) && !Bit(z, 0x2000) && !Bit(z, 0x1000)
    requires !Bit(z, 0x0800) && !Bit(z, 0x0400) && !Bit(z, 0x0200) && !Bit(z, 0x0100)
    requires !Bit(z, 0x0080) && !Bit(z, 0x0040) && !Bit(z, 0x0020) && !Bit(z, 0x0010)
    requires !Bit(z, 0x0008) && !Bit(z, 0x0004) && !Bit(z, 0x0002) && !Bit(z, 0x0001)
    ensures z == 0
  {
  }

  lemma ZeroWord(z: bv16)
    requires Of(z) == ZERO
    ensures z == 0
  {
    forall i | 0 <= i < 16 ensures !Bit(z, Mask(i)) { assert Of(z)[i] == ZERO[i]; }
    assert !Bit(z, Mask(0)) && !Bit(z, Mask(1)) && !Bit(z, Mask(2)) && !Bit(z, Mask(3));
    assert !Bit(z, Mask(4)) && !Bit(z, Mask(5)) && !Bit(z, Mask(6)) && !Bit(z, Mask(7));
    assert !Bit(z, Mask(8)) && !Bit(z, Mask(9)) && !Bit(z, Mask(10)) && !Bit(z, Mask(11));
    assert !Bit(z, Mask(12)) && !Bit(z, Mask(13)) && !Bit(z, Mask(14)) && !Bit(z, Mask(15));
    ClearWord(z);
  }

  lemma XorIsZero(a: bv16, b: bv16)
    ensures a ^ b == 0 ==> a == b
  {
  }

  lemma OfInjective(a: bv16, b: bv16)
    requires Of(a) == Of(b)
    ensures a == b
  {
    OfXor(a, b);
    assert Xor(Of(a), Of(b)) == ZERO;
    ZeroWord(a ^ b);
    XorIsZero(a, b);
  }

  // ---------------------------------------------------------------------------
  // Bytes
  // ---------------------------------------------------------------------------

  /** The bits of a byte, most significant first. */
  function Bits(b: bv8): seq<bool> { Of(b as bv16 << 8)[..8] }

  function StreamBits(data: seq<bv8>): seq<bool> {
    if data == [] then [] else StreamBits(data[..|data| - 1]) + Bits(data[|data| - 1])
  }

  lemma {:induction false} StreamConcat(a: seq<bv8>, b: seq<bv8>)
    ensures StreamBits(a + b) == StreamBits(a) + StreamBits(b)
  {
    if b == [] {
      assert a + b == a;
      assert StreamBits(a) + [] == StreamBits(a);
    } else {
      var most := b[..|b| - 1];
      assert (a + b)[..|a + b| - 1] == a + most;
      StreamConcat(a, most);
      ConcatAssociates(StreamBits(a), StreamBits(most), Bits(b[|b| - 1]));
    }
  }

  lemma ConcatAssociates<T>(a: seq<T>, b: seq<T>, c: seq<T>)
    ensures a + b + c == a + (b + c)
  {
  }

  lemma {:induction false} StreamLength(data: seq<bv8>)
    ensures |StreamBits(data)| == 8 * |data|
  {
    if data != [] { StreamLength(data[..|data| - 1]); }
  }

  lemma HighByteOnly(b: bv8, m: bv16)
    requires m < 0x100
    ensures !Bit(b as bv16 << 8, m)
  {
  }

  lemma LowMask(i: nat)
    requires 8 <= i < 16
    ensures Mask(i) < 0x100
  {
  }

  lemma NothingBelow(b: bv8)
    ensures CRC16.LeftBy(Of(b as bv16 << 8), 8) == ZERO
  {
    var w := Of(b as bv16 << 8);
    LeftByIs(w, 8);
    forall i | 8 <= i < 16 ensures !w[i] {
      LowMask(i);
      HighByteOnly(b, Mask(i));
    }
  }

  /** Xoring a byte in at the top and taking eight turns is feeding its bits. */
  lemma ByteStep(r: Word, b: bv8)
    ensures CRC16.Pow(8, Xor(r, Of(b as bv16 << 8))) == CRC16.Residue(r, Bits(b))
  {
    var w := Of(b as bv16 << 8);
    Lawful();
    CRC16.WordIsBits(r, w, 8);
    TopBitsIs(w, 8);
    NothingBelow(b);
    CRC16.XorZero(CRC16.Residue(r, Bits(b)), ZERO);
  }

  // ---------------------------------------------------------------------------
  // The loops
  // ---------------------------------------------------------------------------

  function Turns(n: nat, crc: bv16): bv16 { if n == 0 then crc else Turn(Turns(n - 1, crc)) }

  /** The CRC of `data`, continued from `start`. */
  function CrcOf(start: bv16, data: seq<bv8>): bv16 {
    if data == [] then start
    else Turns(8, CrcOf(start, data[..|data| - 1]) ^ (data[|data| - 1] as bv16 << 8))
  }

  /** `crc16_ccitt_false_cont`. */
  method Crc16Cont(start: bv16, data: seq<bv8>) returns (crc: bv16)
    ensures crc == CrcOf(start, data)
    ensures Of(crc) == CRC16.Residue(Of(start), StreamBits(data))
  {
    crc := start;
    for i := 0 to |data|
      invariant crc == CrcOf(start, data[..i])
    {
      ghost var before := crc ^ (data[i] as bv16 << 8);
      crc := crc ^ (data[i] as bv16 << 8);
      for k := 0 to 8
        invariant crc == Turns(k, before)
      {
        if crc & 0x8000 != 0 {
          crc := (crc << 1) ^ POLYNOMIAL;
        } else {
          crc := crc << 1;
        }
      }
      assert data[..i + 1][..i] == data[..i];
    }
    assert data[..|data|] == data;
    CrcIsResidue(start, data);
  }

  /** `crc16_ccitt_false`. */
  method Crc16CcittFalse(data: seq<bv8>) returns (crc: bv16)
    ensures crc == CrcOf(INIT, data)
    ensures Of(crc) == CRC16.Residue(AllOnes(), StreamBits(data))
    ensures data == [] ==> crc == 0xFFFF
    ensures data == NineDigits() ==> crc == 0x29B1
  {
    crc := INIT;
    for i := 0 to |data|
      invariant crc == CrcOf(INIT, data[..i])
    {
      ghost var before := crc ^ (data[i] as bv16 << 8);
      crc := crc ^ (data[i] as bv16 << 8);
      for k := 0 to 8
        invariant crc == Turns(k, before)
      {
        if crc & 0x8000 != 0 {
          crc := (crc << 1) ^ POLYNOMIAL;
        } else {
          crc := crc << 1;
        }
      }
      assert data[..i + 1][..i] == data[..i];
    }
    assert data[..|data|] == data;
    StartsWithOnes(data);
    CheckValue();
  }

  function AllOnes(): Word { seq(16, _ => true) }

  /** The bytes of "123456789", over which the parameters of a CRC are given a check value. */
  function NineDigits(): seq<bv8> { [0x31, 0x32, 0x33, 0x34, 0x35, 0x36, 0x37, 0x38, 0x39] }

  /** The register starts as sixteen ones. */
  lemma StartsWithOnes(data: seq<bv8>)
    ensures Of(CrcOf(INIT, data)) == CRC16.Residue(AllOnes(), StreamBits(data))
  {
    OfInit();
    CrcIsResidue(INIT, data);
  }

  lemma OfInit()
    ensures Of(INIT) == AllOnes()
  {
  }

  lemma TurnsTwice(n: nat, c: bv16)
    ensures Turns(0, c) == c && Turns(n + 2, c) == Turn(Turn(Turns(n, c)))
  {
    assert Turns(n + 1, c) == Turn(Turns(n, c));
  }

  lemma EightTurns(c: bv16)
    ensures Turns(8, c) == Turn(Turn(Turn(Turn(Turn(Turn(Turn(Turn(c))))))))
  {
    TurnsTwice(0, c);
    TurnsTwice(2, c);
    TurnsTwice(4, c);
    TurnsTwice(6, c);
  }

  lemma OneByte(data: seq<bv8>, i: nat, before: bv16, after: bv16)
    requires i < |data| && CrcOf(0xFFFF, data[..i]) == before
    requires var c := before ^ (data[i] as bv16 << 8);
             Turn(Turn(Turn(Turn(Turn(Turn(Turn(Turn(c)))))))) == after
    ensures CrcOf(0xFFFF, data[..i + 1]) == after
  {
    assert data[..i + 1][..i] == data[..i];
    EightTurns(before ^ (data[i] as bv16 << 8));
  }

  lemma CheckValue()
    ensures CrcOf(0xFFFF, NineDigits()) == 0x29B1
  {
    var d := NineDigits();
    assert d[..0] == [];
    OneByte(d, 0, 0xFFFF, 0xC782);
    OneByte(d, 1, 0xC782, 0x3DBA);
    OneByte(d, 2, 0x3DBA, 0x5BCE);
    OneByte(d, 3, 0x5BCE, 0x5349);
    OneByte(d, 4, 0x5349, 0x4560);
    OneByte(d, 5, 0x4560, 0x2EF4);
    OneByte(d, 6, 0x2EF4, 0x7718);
    OneByte(d, 7, 0x7718, 0xA12B);
    OneByte(d, 8, 0xA12B, 0x29B1);
    assert d[..9] == d;
  }

  lemma {:induction false} OfTurns(n: nat, c: bv16)
    ensures Of(Turns(n, c)) == CRC16.Pow(n, Of(c))
  {
    if n > 0 {
      OfTurns(n - 1, c);
      OfTurn(Turns(n - 1, c));
    }
  }

  lemma OfByteStep(c: bv16, b: bv8)
    ensures Of(Turns(8, c ^ (b as bv16 << 8))) == CRC16.Residue(Of(c), Bits(b))
  {
    OfTurns(8, c ^ (b as bv16 << 8));
    OfXor(c, b as bv16 << 8);
    ByteStep(Of(c), b);
  }

  /** The byte-wise loops compute the residue of the bit stream. */
  lemma {:induction false} CrcIsResidue(start: bv16, data: seq<bv8>)
    ensures Of(CrcOf(start, data)) == CRC16.Residue(Of(start), StreamBits(data))
  {
    if data != [] {
      var most, last := data[..|data| - 1], data[|data| - 1];
      CrcIsResidue(start, most);
      OfByteStep(CrcOf(start, most), last);
      CRC16.ResidueConcat(Of(start), StreamBits(most), Bits(last));
    }
  }

  lemma {:induction false} CrcContinues(start: bv16, a: seq<bv8>, b: seq<bv8>)
    ensures CrcOf(start, a + b) == CrcOf(CrcOf(start, a), b)
  {
    if b == [] {
      assert a + b == a;
    } else {
      assert (a + b)[..|a + b| - 1] == a + b[..|b| - 1];
      CrcContinues(start, a, b[..|b| - 1]);
    }
  }
}
