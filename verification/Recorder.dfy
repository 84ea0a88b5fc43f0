/** The candump printer and parser (src/recorder/mod.rs). */
module Recorder {
  import opened Wrappers
  import opened Frames
  import opened Text
  import Candump

  const U32_MAX: nat := 0xFFFF_FFFF
  const U64_MAX: nat := 0xFFFF_FFFF_FFFF_FFFF

  datatype Duration = Duration(secs: nat, nanos: nat) {
    predicate Valid() { secs <= U64_MAX && nanos < 1_000_000_000 }
  }

  datatype ParseError = FieldCount | BadParentheses | BadTimestamp | NoHash | BadId | NoFlags | BadFlags | BadData

  // ---------------------------------------------------------------------------
  // Printing
  // ---------------------------------------------------------------------------

  function TimestampText(ts: Duration): string { Printed(ts.secs, 10) + ['.'] + Fixed(ts.nanos / 1000, 6, 10) }

  function FdBody(f: Frame): string { HexByte(if f.brs then 1 else 0) + Hex(f.data) }

  function FrameText(f: Frame): string {
    if f.fd then Printed(f.id, 16) + ['#', '#'] + FdBody(f) else Printed(f.id, 16) + ['#'] + Hex(f.data)
  }

  function Stamp(ts: Duration): string { ['('] + TimestampText(ts) + [')'] }

  function FormatLine(iface: string, ts: Duration, f: Frame): string {
    Stamp(ts) + [' '] + (iface + [' '] + FrameText(f))
  }

  // ---------------------------------------------------------------------------
  // Parsing
  // ---------------------------------------------------------------------------

  /** The first position of a character. */
  function Find(s: string, c: char): (r: Option<nat>)
    ensures r.Some? ==> r.value < |s| && s[r.value] == c && c !in s[..r.value]
    ensures r.None? ==> c !in s
    decreases |s|
  {
    if s == "" then None
    else if s[0] == c then Some(0)
    else match Find(s[1..], c)
      case Some(i) =>
        assert s[..i + 1] == [s[0]] + s[1..][..i];
        Some(i + 1)
      case None => None
  }

  /** The first position of a doubled character. */
  function FindTwice(s: string, c: char): (r: Option<nat>)
    ensures r.Some? ==> r.value + 2 <= |s| && s[r.value] == c == s[r.value + 1]
    ensures r.Some? ==> forall i :: 0 <= i < r.value ==> !Candump.Doubled(s, c, i)
    ensures r.None? ==> forall i :: 0 <= i < |s| ==> !Candump.Doubled(s, c, i)
    decreases |s|
  {
    if |s| < 2 then None
    else if s[0] == c && s[1] == c then Some(0)
    else
      assert forall i :: 1 <= i < |s| && Candump.Doubled(s, c, i) ==> Candump.Doubled(s[1..], c, i - 1);
      match FindTwice(s[1..], c)
      case Some(i) => Some(i + 1)
      case None => None
  }

  /** The six digits the fraction is read from: filled up with zeros, then cut. */
  function SixDigits(fraction: string): string {
    if |fraction| < 6 then fraction + seq(6 - |fraction|, _ => '0') else fraction[..6]
  }

  function ParseTimestamp(s: string): Result<Duration, ParseError> {
    match Find(s, '.')
    case None =>
      (match ParseUnsigned(s, 10, U64_MAX)
       case Some(secs) => Ok(Duration(secs, 0))
       case None => Err(BadTimestamp))
    case Some(dot) =>
      match (ParseUnsigned(s[..dot], 10, U64_MAX), ParseUnsigned(SixDigits(s[dot + 1..]), 10, U64_MAX))
      case (Some(secs), Some(micros)) => Ok(Duration(secs, micros * 1000))
      case _ => Err(BadTimestamp)
  }

  /** `parse_timestamp`, with its padding loop. */
  method TimestampOf(s: string) returns (r: Result<Duration, ParseError>)
    ensures r == ParseTimestamp(s)
    ensures r.Ok? ==> Candump.Timestamp(s, r.value.secs, r.value.nanos)
    ensures r.Err? ==> r == Err(BadTimestamp) && forall secs, nanos :: !Candump.Timestamp(s, secs, nanos)
  {
    TimestampMeans(s);
    var found := Find(s, '.');
    if found == None {
      var whole := ParseUnsigned(s, 10, U64_MAX);
      return if whole.Some? then Ok(Duration(whole.value, 0)) else Err(BadTimestamp);
    }
    var secs := ParseUnsigned(s[..found.value], 10, U64_MAX);
    if secs == None {
      return Err(BadTimestamp);
    }
    var fraction := s[found.value + 1..];
    while |fraction| < 6
      invariant SixDigits(fraction) == SixDigits(s[found.value + 1..])
      decreases 6 - |fraction|
    {
      fraction := fraction + "0";
    }
    fraction := fraction[..6];
    var micros := ParseUnsigned(fraction, 10, U64_MAX);
    return if micros.Some? then Ok(Duration(secs.value, micros.value * 1000)) else Err(BadTimestamp);
  }

  // ---------------------------------------------------------------------------
  // What timestamps mean
  // ---------------------------------------------------------------------------

  function Zeros(n: nat): string { seq(n, _ => '0') }

  /** Zeros at the end multiply by ten. */
  lemma {:induction false} ValueZeros(d: string, n: nat)
    ensures Value(d + Zeros(n), 10)
            == match Value(d, 10) case Some(m) => Some(m * Candump.Ten(n)) case None => None
    decreases n
  {
    if n == 0 {
      assert d + Zeros(0) == d;
    } else {
      var s := d + Zeros(n);
      assert s[..|s| - 1] == d + Zeros(n - 1);
      ValueZeros(d, n - 1);
      if Value(d, 10).Some? {
        TenTimes(Value(d, 10).value, Candump.Ten(n - 1));
      }
    }
  }

  lemma TenTimes(m: nat, t: nat)
    ensures m * t * 10 == m * (10 * t)
  {
  }

  lemma {:induction false} ValueBound(d: string)
    requires Value(d, 10).Some?
    ensures Value(d, 10).value < Candump.Ten(|d|)
    decreases |d|
  {
    if d != "" {
      ValueBound(d[..|d| - 1]);
    }
  }

  lemma {:induction false} TenPlus(a: nat, b: nat)
    ensures Candump.Ten(a + b) == Candump.Ten(a) * Candump.Ten(b)
    decreases a
  {
    if a > 0 {
      TenPlus(a - 1, b);
      TenTimesTwo(Candump.Ten(a - 1), Candump.Ten(b));
    }
  }

  lemma TenTimesTwo(a: nat, b: nat)
    ensures 10 * (a * b) == 10 * a * b
  {
  }

  /** A text without its plus sign. */
  function Unsigned(s: string): string { if s != "" && s[0] == '+' then s[1..] else s }

  /** So many characters of a fraction count. */
  function Counted(f: string): (k: nat)
    ensures k <= 6 && k <= |f|
  {
    if |f| > 6 then 6 else |f|
  }

  /** The six digits are the fraction's own, without a plus sign, and zeros. */
  lemma SixDigitsAre(f: string)
    ensures var k := Counted(f);
            Unsigned(SixDigits(f)) == Unsigned(f[..k]) + Zeros(6 - k) && 5 <= |Unsigned(SixDigits(f))| <= 6
  {
    var k := Counted(f);
    assert f[..k] + Zeros(6 - k) == SixDigits(f);
  }

  /** Which of the two readings applies is decided by the first character. */
  lemma SpellsIff(g: string, n: nat)
    ensures Candump.Spells(g, n) <==> Value(Unsigned(g), 10) == Some(n)
  {
    NumeralIff(Unsigned(g), 10, n);
    if g != "" && g[0] == '+' {
      NoPlus(g, 10, n);
      assert g == "+" + Unsigned(g);
    }
  }

  /** In thousandths of a second, the six digits; in nanoseconds, that times a thousand. */
  lemma SixDigitsValue(f: string)
    ensures var k, u := Counted(f), ParseUnsigned(SixDigits(f), 10, U64_MAX);
            match Value(Unsigned(f[..k]), 10)
            case None => u == None
            case Some(m) => u == Some(m * Candump.Ten(6 - k)) && u.value * 1000 == m * Candump.Ten(9 - k)
  {
    var k: nat, six := Counted(f), Unsigned(SixDigits(f));
    SixDigitsAre(f);
    ValueZeros(Unsigned(f[..k]), 6 - k);
    if Value(Unsigned(f[..k]), 10).Some? {
      ValueBound(six);
      Below(Value(six, 10).value, |six|);
      Thousand(Value(Unsigned(f[..k]), 10).value, 6 - k);
    }
  }

  lemma FractionIff(f: string, nanos: nat)
    ensures Candump.Fraction(f, nanos)
            <==> match ParseUnsigned(SixDigits(f), 10, U64_MAX) case Some(u) => nanos == u * 1000 case None => false
  {
    var k := Counted(f);
    SixDigitsValue(f);
    if Candump.Fraction(f, nanos) {
      var m: nat :| Candump.Spells(f[..k], m) && nanos == m * Candump.Ten(9 - k);
      SpellsIff(f[..k], m);
    }
    if Value(Unsigned(f[..k]), 10).Some? {
      var m := Value(Unsigned(f[..k]), 10).value;
      SpellsIff(f[..k], m);
      if nanos == m * Candump.Ten(9 - k) {
        assert Candump.Fraction(f, nanos);
      }
    }
  }

  lemma Below(n: nat, e: nat)
    requires n < Candump.Ten(e) && e <= 6
    ensures n < 1_000_000
  {
    assert Candump.Ten(6) == 1_000_000 && Candump.Ten(5) == 100_000 && Candump.Ten(4) == 10_000;
  }

  lemma Thousand(m: nat, e: nat)
    ensures m * Candump.Ten(e) * 1000 == m * Candump.Ten(e + 3)
  {
    assert Candump.Ten(1) == 10 && Candump.Ten(3) == 1000;
    TenPlus(e, 3);
    Associates(m, Candump.Ten(e), 1000);
  }

  lemma Associates(a: nat, b: nat, c: nat)
    ensures a * b * c == a * (b * c)
  {
  }

  /** Exactly the timestamps of the format are read, each with its value. */
  lemma TimestampMeans(s: string)
    ensures var r := ParseTimestamp(s);
            && (r.Ok? ==> Candump.Timestamp(s, r.value.secs, r.value.nanos))
            && (r.Err? ==> r == Err(BadTimestamp) && forall secs, nanos :: !Candump.Timestamp(s, secs, nanos))
  {
    var r := ParseTimestamp(s);
    if r.Ok? {
      TimestampIff(s, r.value.secs, r.value.nanos);
    } else {
      forall secs, nanos ensures !Candump.Timestamp(s, secs, nanos) {
        TimestampIff(s, secs, nanos);
      }
    }
  }

  lemma TimestampIff(s: string, secs: nat, nanos: nat)
    ensures ParseTimestamp(s) == Ok(Duration(secs, nanos)) <==> Candump.Timestamp(s, secs, nanos)
  {
    var found := Find(s, '.');
    if found == None {
      UnsignedIff(s, 10, U64_MAX, secs);
    } else {
      var w, f := s[..found.value], s[found.value + 1..];
      assert s == w + "." + f;
      UnsignedIff(w, 10, U64_MAX, secs);
      FractionIff(f, nanos);
      if Candump.Timestamp(s, secs, nanos) {
        var v, g :| s == v + "." + g && '.' !in v && Candump.Unsigned(v, 10, secs) && Candump.Fraction(g, nanos);
        FirstDot(v, g, w, f);
      }
    }
  }

  lemma FirstDot(v: string, g: string, w: string, f: string)
    requires v + "." + g == w + "." + f && '.' !in v && '.' !in w
    ensures v == w && g == f
  {
    var s := v + "." + g;
    FindAfter(v, '.', g);
    FindAfter(w, '.', f);
    assert v == s[..|v|] && w == s[..|w|] && g == s[|v| + 1..] && f == s[|w| + 1..];
  }

  function ParseFrame(s: string): Result<Frame, ParseError> {
    match FindTwice(s, '#')
    case Some(i) =>
      (match ParseUnsigned(s[..i], 16, U32_MAX)
       case None => Err(BadId)
       case Some(id) => ParseFd(id, s[i + 2..]))
    case None =>
      match Find(s, '#')
      case None => Err(NoHash)
      case Some(i) =>
        match ParseUnsigned(s[..i], 16, U32_MAX)
        case None => Err(BadId)
        case Some(id) => ParseClassic(id, s[i + 1..])
  }

  function ParseFd(id: nat, rest: string): Result<Frame, ParseError> {
    if |rest| < 2 then Err(NoFlags)
    else match (Unhex(rest[..2]), Unhex(rest[2..]))
      case (None, _) => Err(BadFlags)
      case (Some(flags), None) => Err(BadData)
      case (Some(flags), Some(data)) =>
        if id <= U32_MAX && flags != [] then Ok(DEFAULT.(id := id, fd := true, brs := flags[0] % 2 == 1, data := data))
        else Err(BadFlags)
  }

  function ParseClassic(id: nat, text: string): Result<Frame, ParseError> {
    match Unhex(text)
    case None => Err(BadData)
    case Some(data) =>
      if id <= U32_MAX then Ok(DEFAULT.(id := id, ext := id > MAX_STD_ID, data := data)) else Err(BadId)
  }

  function ParseLine(line: string): Result<(Duration, Frame), ParseError> {
    var parts := Fields(line);
    if |parts| != 3 then Err(FieldCount)
    else
      var ts := parts[0];
      if ts == "" || ts[0] != '(' || ts[|ts| - 1] != ')' then Err(BadParentheses)
      else
        assert |ts| >= 2;
        match ParseTimestamp(ts[1..|ts| - 1])
        case Err(e) => Err(e)
        case Ok(t) =>
          match ParseFrame(parts[2])
          case Err(e) => Err(e)
          case Ok(f) => Ok((t, f))
  }

  // ---------------------------------------------------------------------------
  // The round trip
  // ---------------------------------------------------------------------------

  /** What the format keeps of a timestamp: whole microseconds. */
  function Floored(ts: Duration): Duration { Duration(ts.secs, ts.nanos / 1000 * 1000) }

  /** What the format keeps of a frame: id and data, and fd with brs, or an ext flag recomputed from the id. */
  function Normal(f: Frame): Frame {
    if f.fd then DEFAULT.(id := f.id, fd := true, brs := f.brs, data := f.data)
    else DEFAULT.(id := f.id, ext := f.id > MAX_STD_ID, data := f.data)
  }

  lemma {:induction false} FindAfter(x: string, c: char, y: string)
    requires c !in x
    ensures Find(x + [c] + y, c) == Some(|x|)
    decreases |x|
  {
    if x != "" {
      assert (x + [c] + y)[1..] == x[1..] + [c] + y;
      FindAfter(x[1..], c, y);
    }
  }

  lemma {:induction false} FindTwiceAfter(x: string, c: char, y: string)
    requires c !in x
    ensures FindTwice(x + [c, c] + y, c) == Some(|x|)
    decreases |x|
  {
    var s := x + [c, c] + y;
    if x != "" {
      assert s[1..] == x[1..] + [c, c] + y;
      FindTwiceAfter(x[1..], c, y);
    }
  }

  /** A character that occurs once is not doubled. */
  lemma FindTwiceNone(x: string, c: char, y: string)
    requires c !in x && c !in y
    ensures FindTwice(x + [c] + y, c) == None
  {
    var s := x + [c] + y;
    forall i | 0 <= i < |s| - 1 ensures s[i] != c || s[i + 1] != c {
      if i < |x| {
        assert s[i] == x[i];
      } else {
        assert s[i + 1] == y[i - |x|];
      }
    }
  }

  lemma PlainHas(s: string, c: char)
    requires Plain(s) && !PlainChar(c)
    ensures c !in s
  {
  }

  lemma TimestampRoundTrip(ts: Duration)
    requires ts.Valid()
    ensures ParseTimestamp(TimestampText(ts)) == Ok(Floored(ts))
  {
    var secs, fraction := Printed(ts.secs, 10), Fixed(ts.nanos / 1000, 6, 10);
    var s := TimestampText(ts);
    assert Power(10, 6) == 1_000_000;
    PrintedValue(ts.secs, 10);
    FixedValue(ts.nanos / 1000, 6, 10);
    ParsePrinted(ts.secs, 10, U64_MAX);
    FindAfter(secs, '.', fraction);
    assert s[..|secs|] == secs && s[|secs| + 1..] == fraction && fraction[..6] == fraction;
  }

  lemma FdBodyRoundTrip(id: Word32, flags: Octet, data: seq<Octet>)
    ensures ParseFd(id, HexByte(flags) + Hex(data))
            == Ok(DEFAULT.(id := id, fd := true, brs := flags % 2 == 1, data := data))
  {
    var rest := HexByte(flags) + Hex(data);
    HexRoundTrip(data);
    HexStep(flags, "", []);
    assert rest[..2] == HexByte(flags) + "" && rest[2..] == Hex(data);
  }

  lemma FdParts(id: Word32, rest: string)
    ensures ParseFrame(Printed(id, 16) + ['#', '#'] + rest) == ParseFd(id, rest)
  {
    var digits := Printed(id, 16);
    PrintedValue(id, 16);
    ParsePrinted(id, 16, U32_MAX);
    PlainHas(digits, '#');
    FindTwiceAfter(digits, '#', rest);
    var s := digits + ['#', '#'] + rest;
    assert s[..|digits|] == digits && s[|digits| + 2..] == rest;
  }

  lemma FdRoundTrip(f: Frame)
    requires f.fd
    ensures ParseFrame(FrameText(f)) == Ok(Normal(f))
  {
    FdParts(f.id, FdBody(f));
    FdBodyRoundTrip(f.id, if f.brs then 1 else 0, f.data);
  }

  lemma ClassicRoundTrip(f: Frame)
    requires !f.fd
    ensures ParseFrame(FrameText(f)) == Ok(Normal(f))
  {
    var id, data := Printed(f.id, 16), Hex(f.data);
    var s := FrameText(f);
    PrintedValue(f.id, 16);
    ParsePrinted(f.id, 16, U32_MAX);
    HexRoundTrip(f.data);
    FindTwiceNone(id, '#', data);
    FindAfter(id, '#', data);
    assert s[..|id|] == id && s[|id| + 1..] == data;
  }

  /** The printed fields contain no space. */
  lemma StampIsOneField(ts: Duration)
    requires ts.Valid()
    ensures Fields(Stamp(ts)) == [Stamp(ts)]
  {
    assert Power(10, 6) == 1_000_000;
    PrintedValue(ts.secs, 10);
    FixedValue(ts.nanos / 1000, 6, 10);
    PlainIsSolid(Printed(ts.secs, 10));
    PlainIsSolid(Fixed(ts.nanos / 1000, 6, 10));
    OneField(Stamp(ts));
  }

  lemma FrameIsOneField(f: Frame)
    ensures Fields(FrameText(f)) == [FrameText(f)]
  {
    PrintedValue(f.id, 16);
    HexRoundTrip(f.data);
    PlainIsSolid(Printed(f.id, 16));
    PlainIsSolid(Hex(f.data));
    PlainIsSolid(HexByte(if f.brs then 1 else 0));
    OneField(FrameText(f));
  }

  lemma LineFields(iface: string, ts: Duration, f: Frame)
    requires ts.Valid()
    ensures Fields(FormatLine(iface, ts, f)) == [Stamp(ts)] + Fields(iface) + [FrameText(f)]
  {
    StampIsOneField(ts);
    FrameIsOneField(f);
    FieldsSplit(iface, ' ', FrameText(f));
    FieldsSplit(Stamp(ts), ' ', iface + [' '] + FrameText(f));
  }

  lemma FrameRoundTrip(f: Frame)
    ensures ParseFrame(FrameText(f)) == Ok(Normal(f))
  {
    if f.fd {
      FdRoundTrip(f);
    } else {
      ClassicRoundTrip(f);
    }
  }

  /** The timestamp stands in parentheses. */
  lemma StampRoundTrip(ts: Duration)
    requires ts.Valid()
    ensures var stamp := Stamp(ts);
            && |stamp| >= 2 && stamp[0] == '(' && stamp[|stamp| - 1] == ')'
            && ParseTimestamp(stamp[1..|stamp| - 1]) == Ok(Floored(ts))
  {
    TimestampRoundTrip(ts);
    assert Stamp(ts)[1..|Stamp(ts)| - 1] == TimestampText(ts);
  }

  /** A line of three fields is read, any other refused. */
  lemma LineParsed(line: string, stamp: string, between: seq<string>, frame: string, t: Duration, f: Frame)
    requires Fields(line) == [stamp] + between + [frame]
    requires |stamp| >= 2 && stamp[0] == '(' && stamp[|stamp| - 1] == ')'
    requires ParseTimestamp(stamp[1..|stamp| - 1]) == Ok(t) && ParseFrame(frame) == Ok(f)
    ensures ParseLine(line) == if |between| == 1 then Ok((t, f)) else Err(FieldCount)
  {
    if |between| == 1 {
      FieldsParsed(line, stamp, frame, t, f);
    } else {
      WrongFieldCount(line);
    }
  }

  lemma WrongFieldCount(line: string)
    requires |Fields(line)| != 3
    ensures ParseLine(line) == Err(FieldCount)
  {
  }

  lemma FieldsParsed(line: string, stamp: string, frame: string, t: Duration, f: Frame)
    requires |Fields(line)| == 3 && Fields(line)[0] == stamp && Fields(line)[2] == frame
    requires |stamp| >= 2 && stamp[0] == '(' && stamp[|stamp| - 1] == ')'
    requires ParseTimestamp(stamp[1..|stamp| - 1]) == Ok(t) && ParseFrame(frame) == Ok(f)
    ensures ParseLine(line) == Ok((t, f))
  {
  }

  /** Main result. A printed line is read back, with the timestamp floored to microseconds and the frame in normal
      form, exactly when the interface name is one word; otherwise the line has the wrong number of fields. */
  lemma RoundTrip(iface: string, ts: Duration, f: Frame)
    requires ts.Valid()
    ensures ParseLine(FormatLine(iface, ts, f))
            == if |Fields(iface)| == 1 then Ok((Floored(ts), Normal(f))) else Err(FieldCount)
  {
    LineFields(iface, ts, f);
    StampRoundTrip(ts);
    FrameRoundTrip(f);
    LineParsed(FormatLine(iface, ts, f), Stamp(ts), Fields(iface), FrameText(f), Floored(ts), Normal(f));
  }

  /** Main result.  Printing what was read gives the same line again. */
  lemma Reprint(iface: string, ts: Duration, f: Frame)
    requires ts.Valid() && |Fields(iface)| == 1
    ensures var r := ParseLine(FormatLine(iface, ts, f));
            r.Ok? && FormatLine(iface, r.value.0, r.value.1) == FormatLine(iface, ts, f)
  {
    RoundTrip(iface, ts, f);
    assert Floored(ts).nanos / 1000 == ts.nanos / 1000;
  }

  /** A frame with no flag the format cannot carry. */
  predicate Carried(f: Frame) {
    && !f.rtr && !f.esi && !f.xl && f.sdt == 0 && f.vcid == 0 && f.af == 0 && !f.sec
    && (f.fd ==> !f.ext)
    && (!f.fd ==> !f.brs && (f.ext <==> f.id > MAX_STD_ID))
  }

  lemma NormalIff(f: Frame)
    ensures Normal(f) == f <==> Carried(f)
  {
  }

  /** Nothing is lost exactly for whole microseconds and a frame that has no flag the format cannot carry. */
  lemma LosslessIff(iface: string, ts: Duration, f: Frame)
    requires ts.Valid() && |Fields(iface)| == 1
    ensures ParseLine(FormatLine(iface, ts, f)) == Ok((ts, f)) <==> ts.nanos % 1000 == 0 && Carried(f)
  {
    RoundTrip(iface, ts, f);
    SameIff(ParseLine(FormatLine(iface, ts, f)), ts, f);
  }

  lemma SameIff(r: Result<(Duration, Frame), ParseError>, ts: Duration, f: Frame)
    requires r == Ok((Floored(ts), Normal(f)))
    ensures r == Ok((ts, f)) <==> ts.nanos % 1000 == 0 && Carried(f)
  {
    NormalIff(f);
  }
}
