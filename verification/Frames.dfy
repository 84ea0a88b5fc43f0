/** CAN frames, filters and validation (src/frame.rs). */
module Frames {
  import opened Wrappers
  import opened Bits

  type Octet = n: nat | n < 0x100
  type Word32 = n: nat | n < 0x1_0000_0000

  const MAX_STD_ID := 0x7FF
  const MAX_EXT_ID := 0x1FFF_FFFF
  const MAX_CLASSIC_LEN := 8
  const MAX_FD_LEN := 64
  const MAX_XL_LEN := 2048

  datatype Frame = Frame(id: Word32, ext: bool, rtr: bool, fd: bool, brs: bool, esi: bool, xl: bool,
                         sdt: Octet, vcid: Octet, af: Word32, sec: bool, data: seq<Octet>)

  /** `Frame::default()`. */
  const DEFAULT: Frame := Frame(0, false, false, false, false, false, false, 0, 0, 0, false, [])

  datatype Filter = Filter(id: Word32, mask: Word32)

  predicate Matches(filter: Filter, f: Frame) { And(f.id, filter.mask) == And(filter.id, filter.mask) }

  /** Where the mask has a one, the frame's id has the filter's digit. */
  predicate Agrees(filter: Filter, f: Frame) {
    forall i :: 0 <= i < 32 && HasBit(filter.mask, i) ==> (HasBit(f.id, i) <==> HasBit(filter.id, i))
  }

  lemma {:induction false} MatchesIff(filter: Filter, f: Frame)
    ensures Matches(filter, f) <==> Agrees(filter, f)
  {
    var a, b := And(f.id, filter.mask), And(filter.id, filter.mask);
    forall i: nat
      ensures Bit(a, i) == Bit(b, i)
              <==> (HasBit(filter.mask, i) ==> (HasBit(f.id, i) <==> HasBit(filter.id, i)))
    {
      AndBit(f.id, filter.mask, i);
      AndBit(filter.id, filter.mask, i);
      HasBitIs(f.id, i);
      HasBitIs(filter.id, i);
      HasBitIs(filter.mask, i);
    }
    Pow32();
    if Agrees(filter, f) {
      SameBits(a, b, 32);
    }
  }

  /** The two masks in common use: the empty one lets everything pass, the full one a single id. */
  lemma EmptyAndFullMask(id: Word32, f: Frame)
    ensures Matches(Filter(id, 0), f)
    ensures Matches(Filter(id, 0xFFFF_FFFF), f) <==> f.id == id
  {
    Pow32();
    MatchesIff(Filter(id, 0xFFFF_FFFF), f);
    if Agrees(Filter(id, 0xFFFF_FFFF), f) {
      forall i | 0 <= i < 32 ensures Bit(f.id, i) == Bit(id, i) {
        AllOnes(32, i);
        HasBitIs(f.id, i);
        HasBitIs(id, i);
      }
      SameBits(f.id, id, 32);
    }
  }

  /** An empty filter list accepts everything. */
  predicate MatchesAny(filters: seq<Filter>, f: Frame) {
    filters == [] || exists i :: 0 <= i < |filters| && Matches(filters[i], f)
  }

  lemma MatchesAnyIff(filters: seq<Filter>, f: Frame)
    ensures MatchesAny(filters, f) <==> filters == [] || exists i :: 0 <= i < |filters| && Agrees(filters[i], f)
  {
    forall i | 0 <= i < |filters| ensures Matches(filters[i], f) <==> Agrees(filters[i], f) {
      MatchesIff(filters[i], f);
    }
  }

  predicate CanonicalFdLength(n: nat) { n <= 8 || n in {12, 16, 20, 24, 32, 48, 64} }

  datatype InvalidFrame =
    | XlAndFd | XlExt | XlRtr | XlBrs | XlId | XlEmpty | XlTooLong
    | ExtId | StdId | BrsWithoutFd | RtrWithFd | EsiWithoutFd | FdTooLong | FdLength | ClassicTooLong

  /** `validate_frame`: the first rule violated, in the order the code checks them. */
  function Validate(f: Frame): Result<(), InvalidFrame> {
    if f.xl && f.fd then Err(XlAndFd)
    else if f.xl then
      if f.ext then Err(XlExt)
      else if f.rtr then Err(XlRtr)
      else if f.brs then Err(XlBrs)
      else if f.id > MAX_STD_ID then Err(XlId)
      else if f.data == [] then Err(XlEmpty)
      else if |f.data| > MAX_XL_LEN then Err(XlTooLong)
      else Ok(())
    else if f.ext && f.id > MAX_EXT_ID then Err(ExtId)
    else if !f.ext && f.id > MAX_STD_ID then Err(StdId)
    else if f.brs && !f.fd then Err(BrsWithoutFd)
    else if f.rtr && f.fd then Err(RtrWithFd)
    else if f.esi && !f.fd && !f.xl then Err(EsiWithoutFd)
    else if f.fd then
      if |f.data| > MAX_FD_LEN then Err(FdTooLong)
      else if !CanonicalFdLength(|f.data|) then Err(FdLength)
      else Ok(())
    else if |f.data| > MAX_CLASSIC_LEN then Err(ClassicTooLong)
    else Ok(())
  }

  predicate Valid(f: Frame) { Validate(f).Ok? }

  /** What makes a frame well-formed, format by format. */
  predicate WellFormed(f: Frame) {
    if f.xl then !f.fd && !f.ext && !f.rtr && !f.brs && f.id < 2048 && 1 <= |f.data| <= 2048
    else
      && f.id < (if f.ext then 0x2000_0000 else 2048)
      && if f.fd then !f.rtr && |f.data| in {0, 1, 2, 3, 4, 5, 6, 7, 8, 12, 16, 20, 24, 32, 48, 64}
         else !f.brs && !f.esi && |f.data| <= 8
  }

  /** The rule a frame breaks, by the name of the error. */
  predicate Breaks(f: Frame, rule: InvalidFrame) {
    match rule
    case XlAndFd => f.xl && f.fd
    case XlExt => f.xl && f.ext
    case XlRtr => f.xl && f.rtr
    case XlBrs => f.xl && f.brs
    case XlId => f.xl && f.id >= 2048
    case XlEmpty => f.xl && |f.data| == 0
    case XlTooLong => f.xl && |f.data| > 2048
    case ExtId => !f.xl && f.ext && f.id >= 0x2000_0000
    case StdId => !f.xl && !f.ext && f.id >= 2048
    case BrsWithoutFd => !f.xl && !f.fd && f.brs
    case RtrWithFd => !f.xl && f.fd && f.rtr
    case EsiWithoutFd => !f.xl && !f.fd && f.esi
    case FdTooLong => !f.xl && f.fd && |f.data| > 64
    case FdLength => !f.xl && f.fd && |f.data| !in {0, 1, 2, 3, 4, 5, 6, 7, 8, 12, 16, 20, 24, 32, 48, 64}
    case ClassicTooLong => !f.xl && !f.fd && |f.data| > 8
  }

  /** The order in which the rules are checked. */
  function Rank(rule: InvalidFrame): nat {
    match rule
    case XlAndFd => 0 case XlExt => 1 case XlRtr => 2 case XlBrs => 3 case XlId => 4 case XlEmpty => 5
    case XlTooLong => 6
    case ExtId => 7 case StdId => 8 case BrsWithoutFd => 9 case RtrWithFd => 10 case EsiWithoutFd => 11
    case FdTooLong => 12 case FdLength => 13 case ClassicTooLong => 14
  }

  lemma RanksDiffer(a: InvalidFrame, b: InvalidFrame)
    requires Rank(a) == Rank(b)
    ensures a == b
  {
  }

  lemma FirstBroken(f: Frame)
    requires Validate(f).Err?
    ensures Breaks(f, Validate(f).error)
    ensures forall other :: Breaks(f, other) ==> Rank(Validate(f).error) <= Rank(other)
  {
  }

  /** Exactly the well-formed frames pass, and an error names the first rule broken. */
  lemma ValidIff(f: Frame)
    ensures Valid(f) <==> WellFormed(f)
    ensures forall rule :: Validate(f) == Err(rule) <==>
              Breaks(f, rule) && forall other :: Breaks(f, other) ==> Rank(rule) <= Rank(other)
  {
    if Validate(f).Err? {
      FirstBroken(f);
      forall rule | Breaks(f, rule) && forall other :: Breaks(f, other) ==> Rank(rule) <= Rank(other)
        ensures Validate(f) == Err(rule)
      {
        RanksDiffer(rule, Validate(f).error);
      }
    } else {
      forall rule ensures !Breaks(f, rule) {
      }
    }
  }
}
