/** The recorder's parser and printer against the format: every text and every frame, not only printed lines. */
module RecorderFormat {
  import opened Wrappers
  import opened Frames
  import opened Text
  import opened Recorder
  import Candump

  // ---------------------------------------------------------------------------
  // Reading a frame
  // ---------------------------------------------------------------------------

  lemma FdPartsIff(s: string, w: string, rest: string)
    ensures Candump.FdParts(s, w, rest)
            <==> FindTwice(s, '#') == Some(|w|) && w == s[..|w|] && rest == s[|w| + 2..]
  {
    if FindTwice(s, '#').Some? {
      assert Candump.Doubled(s, '#', FindTwice(s, '#').value);
    }
    if Candump.FdParts(s, w, rest) {
      assert Candump.Doubled(s, '#', |w|);
    }
    if FindTwice(s, '#') == Some(|w|) && w == s[..|w|] && rest == s[|w| + 2..] {
      assert s == w + "##" + rest;
    }
  }

  lemma ClassicPartsIff(s: string, w: string, rest: string)
    ensures Candump.ClassicParts(s, w, rest)
            <==> FindTwice(s, '#') == None && Find(s, '#') == Some(|w|) && w == s[..|w|] && rest == s[|w| + 1..]
  {
    if FindTwice(s, '#').Some? {
      assert Candump.Doubled(s, '#', FindTwice(s, '#').value);
    }
    if '#' !in w {
      FindAfter(w, '#', rest);
    }
    if Find(s, '#') == Some(|w|) && w == s[..|w|] && rest == s[|w| + 1..] {
      assert s == w + "#" + rest;
    }
  }

  lemma NoIdIff(w: string)
    ensures Candump.NoId(w) <==> ParseUnsigned(w, 16, U32_MAX) == None
    ensures forall id: nat :: Candump.Id(w, id) <==> ParseUnsigned(w, 16, U32_MAX) == Some(id)
  {
    forall id: nat ensures Candump.Id(w, id) <==> ParseUnsigned(w, 16, U32_MAX) == Some(id) {
      UnsignedIff(w, 16, U32_MAX, id);
    }
    if ParseUnsigned(w, 16, U32_MAX).Some? {
      assert Candump.Id(w, ParseUnsigned(w, 16, U32_MAX).value);
    }
  }

  lemma NotHexIff(s: string)
    ensures Candump.NotHex(s) <==> Unhex(s) == None
    ensures forall data :: Candump.HexBytes(s, data) <==> Unhex(s) == Some(data)
  {
    forall data ensures Candump.HexBytes(s, data) <==> Unhex(s) == Some(data) {
      UnhexIff(s, data);
    }
    if Unhex(s).Some? {
      assert Candump.HexBytes(s, Unhex(s).value);
    }
  }

  lemma ClassicIff(w: string, rest: string, f: Frame)
    ensures Candump.Classic(w, rest, f)
            <==> match ParseUnsigned(w, 16, U32_MAX) case Some(id) => ParseClassic(id, rest) == Ok(f) case None => false
  {
    NoIdIff(w);
    NotHexIff(rest);
    assert Candump.Id(w, f.id) <==> ParseUnsigned(w, 16, U32_MAX) == Some(f.id);
    assert Candump.HexBytes(rest, f.data) <==> Unhex(rest) == Some(f.data);
  }

  /** Two characters decode to one byte. */
  lemma OneByte(s: string)
    requires |s| == 2 && Unhex(s).Some?
    ensures |Unhex(s).value| == 1 && Unhex(s) == Some([Unhex(s).value[0]])
  {
    NotHexIff(s);
    assert Candump.HexBytes(s, Unhex(s).value);
  }

  lemma FdIff(w: string, rest: string, f: Frame)
    ensures Candump.Fd(w, rest, f)
            <==> match ParseUnsigned(w, 16, U32_MAX) case Some(id) => ParseFd(id, rest) == Ok(f) case None => false
  {
    NoIdIff(w);
    assert Candump.Id(w, f.id) <==> ParseUnsigned(w, 16, U32_MAX) == Some(f.id);
    if |rest| >= 2 {
      NotHexIff(rest[..2]);
      NotHexIff(rest[2..]);
      assert Candump.HexBytes(rest[2..], f.data) <==> Unhex(rest[2..]) == Some(f.data);
      if Unhex(rest[..2]).Some? {
        OneByte(rest[..2]);
      }
    }
  }

  /** Why a text is not a frame. */
  ghost predicate Refused(s: string, e: ParseError) {
    match e
    case NoHash => '#' !in s
    case BadId => exists w, rest :: (Candump.ClassicParts(s, w, rest) || Candump.FdParts(s, w, rest)) && Candump.NoId(w)
    case NoFlags => exists w, rest :: Candump.FdParts(s, w, rest) && !Candump.NoId(w) && |rest| < 2
    case BadFlags =>
      exists w, rest :: Candump.FdParts(s, w, rest) && !Candump.NoId(w) && |rest| >= 2 && Candump.NotHex(rest[..2])
    case BadData =>
      || (exists w, rest :: Candump.ClassicParts(s, w, rest) && !Candump.NoId(w) && Candump.NotHex(rest))
      || (exists w, rest :: Candump.FdParts(s, w, rest) && !Candump.NoId(w) && |rest| >= 2
                            && !Candump.NotHex(rest[..2]) && Candump.NotHex(rest[2..]))
    case _ => false
  }

  /** Main result. Exactly the frame texts of the format are read, each as the frame it stands for; any other is refused
      with the reason that applies. */
  lemma FrameMeans(s: string, f: Frame)
    ensures ParseFrame(s) == Ok(f) <==> Candump.FrameText(s, f)
    ensures ParseFrame(s).Err? ==> Refused(s, ParseFrame(s).error)
  {
    if FindTwice(s, '#').Some? {
      FdMeans(s, FindTwice(s, '#').value, f);
    } else if Find(s, '#').Some? {
      ClassicMeans(s, Find(s, '#').value, f);
    } else {
      forall w, rest ensures !Candump.FdParts(s, w, rest) && !Candump.ClassicParts(s, w, rest) {
        FdPartsIff(s, w, rest);
        ClassicPartsIff(s, w, rest);
      }
    }
  }

  lemma FdMeans(s: string, i: nat, f: Frame)
    requires FindTwice(s, '#') == Some(i)
    ensures ParseFrame(s) == Ok(f) <==> Candump.FrameText(s, f)
    ensures ParseFrame(s).Err? ==> Refused(s, ParseFrame(s).error)
  {
    var w, rest := s[..i], s[i + 2..];
    FdPartsIff(s, w, rest);
    forall v, r ensures !Candump.ClassicParts(s, v, r) && (Candump.FdParts(s, v, r) ==> v == w && r == rest) {
      FdPartsIff(s, v, r);
      ClassicPartsIff(s, v, r);
    }
    FdIff(w, rest, f);
    FdRefused(s, w, rest);
  }

  /** The error of a text with two hashes. */
  lemma FdRefused(s: string, w: string, rest: string)
    requires Candump.FdParts(s, w, rest)
    ensures match ParseUnsigned(w, 16, U32_MAX)
            case None => Refused(s, BadId)
            case Some(id) => ParseFd(id, rest).Err? ==> Refused(s, ParseFd(id, rest).error)
  {
    NoIdIff(w);
    if |rest| >= 2 {
      NotHexIff(rest[..2]);
      NotHexIff(rest[2..]);
      if Unhex(rest[..2]).Some? {
        OneByte(rest[..2]);
      }
    }
  }

  lemma ClassicMeans(s: string, i: nat, f: Frame)
    requires FindTwice(s, '#') == None && Find(s, '#') == Some(i)
    ensures ParseFrame(s) == Ok(f) <==> Candump.FrameText(s, f)
    ensures ParseFrame(s).Err? ==> Refused(s, ParseFrame(s).error)
  {
    var w, rest := s[..i], s[i + 1..];
    assert s == w + "#" + rest;
    ClassicPartsIff(s, w, rest);
    forall v, r ensures !Candump.FdParts(s, v, r) && (Candump.ClassicParts(s, v, r) ==> v == w && r == rest) {
      FdPartsIff(s, v, r);
      ClassicPartsIff(s, v, r);
    }
    ClassicIff(w, rest, f);
    NoIdIff(w);
    NotHexIff(rest);
  }

  // ---------------------------------------------------------------------------
  // Reading a line
  // ---------------------------------------------------------------------------

  lemma StampIff(stamp: string, ts: string)
    ensures Candump.Stamp(stamp, ts)
            <==> |stamp| >= 2 && stamp[0] == '(' && stamp[|stamp| - 1] == ')' && ts == stamp[1..|stamp| - 1]
  {
    if |stamp| >= 2 && stamp[0] == '(' && stamp[|stamp| - 1] == ')' && ts == stamp[1..|stamp| - 1] {
      assert stamp == "(" + ts + ")";
    }
  }

  /** Why a line is refused. */
  ghost predicate LineRefused(line: string, e: ParseError) {
    match e
    case FieldCount => forall words :: Candump.Words(line, words) ==> |words| != 3
    case BadParentheses =>
      exists stamp, name, text :: Candump.Words(line, [stamp, name, text]) && forall ts :: !Candump.Stamp(stamp, ts)
    case BadTimestamp =>
      exists stamp, name, text, ts :: Candump.Words(line, [stamp, name, text]) && Candump.Stamp(stamp, ts)
                                      && forall secs, nanos :: !Candump.Timestamp(ts, secs, nanos)
    case _ => exists stamp, name, text :: Candump.Words(line, [stamp, name, text]) && Refused(text, e)
  }

  lemma ThreeWords(line: string, a: string, b: string, c: string)
    ensures Candump.Words(line, [a, b, c]) <==> Fields(line) == [a, b, c]
  {
    FieldsIff(line, [a, b, c]);
  }

  lemma StampCases(stamp: string)
    ensures (stamp == "" || stamp[0] != '(' || stamp[|stamp| - 1] != ')') <==> forall ts :: !Candump.Stamp(stamp, ts)
  {
    if stamp != "" && stamp[0] == '(' && stamp[|stamp| - 1] == ')' {
      StampIff(stamp, stamp[1..|stamp| - 1]);
    } else {
      forall ts ensures !Candump.Stamp(stamp, ts) {
        StampIff(stamp, ts);
      }
    }
  }

  /** A line of three words. */
  lemma ThreeFieldsMean(line: string, stamp: string, name: string, text: string, t: Duration, f: Frame)
    requires Fields(line) == [stamp, name, text]
    ensures ParseLine(line) == Ok((t, f))
            <==> exists ts :: Candump.Stamp(stamp, ts) && Candump.Timestamp(ts, t.secs, t.nanos)
                              && Candump.FrameText(text, f)
    ensures ParseLine(line).Err? ==> LineRefused(line, ParseLine(line).error)
  {
    ThreeWords(line, stamp, name, text);
    StampCases(stamp);
    FrameMeans(text, f);
    if stamp != "" && stamp[0] == '(' && stamp[|stamp| - 1] == ')' {
      var ts := stamp[1..|stamp| - 1];
      forall u ensures Candump.Stamp(stamp, u) <==> u == ts {
        StampIff(stamp, u);
      }
      TimestampIff(ts, t.secs, t.nanos);
      TimestampMeans(ts);
      assert Candump.Stamp(stamp, ts);
    }
  }

  /** Main result. Exactly the lines of the format are read, each with its values; any other is refused with the reason
      that applies. */
  lemma LineMeans(line: string, t: Duration, f: Frame)
    ensures ParseLine(line) == Ok((t, f)) <==> Candump.Line(line, t.secs, t.nanos, f)
    ensures ParseLine(line).Err? ==> LineRefused(line, ParseLine(line).error)
  {
    var parts := Fields(line);
    if |parts| == 3 {
      assert parts == [parts[0], parts[1], parts[2]];
      ThreeFieldsMean(line, parts[0], parts[1], parts[2], t, f);
      forall a, b, c ensures Candump.Words(line, [a, b, c]) <==> parts == [a, b, c] {
        ThreeWords(line, a, b, c);
      }
    } else {
      forall words ensures Candump.Words(line, words) ==> words == parts {
        FieldsIff(line, words);
      }
    }
  }

  lemma FractionOf(f: string, k: nat, m: nat, nanos: nat)
    requires k == (if |f| > 6 then 6 else |f|) && Candump.Numeral(f[..k], 10, m) && nanos == m * Candump.Ten(9 - k)
    ensures Candump.Fraction(f, nanos)
  {
    assert Candump.Spells(f[..k], m);
  }

  /** A decimal fraction of a second, read to six places: missing digits are zeros at its end, further ones are not
      looked at. */
  lemma DecimalTimestamp(w: string, f: string, secs: nat, k: nat, m: nat)
    requires w != "" && Candump.Numeral(w, 10, secs) && secs <= 0xFFFF_FFFF_FFFF_FFFF && '.' !in w
    requires k == (if |f| > 6 then 6 else |f|) && Candump.Numeral(f[..k], 10, m)
    ensures ParseTimestamp(w + "." + f) == Ok(Duration(secs, m * Candump.Ten(9 - k)))
  {
    var s, nanos := w + "." + f, m * Candump.Ten(9 - k);
    FractionOf(f, k, m, nanos);
    assert Candump.Unsigned(w, 10, secs);
    assert s[|w|] == '.';
    TimestampIff(s, secs, nanos);
  }

  // ---------------------------------------------------------------------------
  // Printing
  // ---------------------------------------------------------------------------

  lemma PlainIsUpper(s: string)
    requires Plain(s)
    ensures Candump.Upper(s)
  {
    forall i | 0 <= i < |s| ensures s[i] in Candump.UPPER {
      PlainCharIsUpper(s[i]);
    }
  }

  lemma PlainCharIsUpper(c: char)
    requires PlainChar(c)
    ensures c in Candump.UPPER
  {
    var v := if c <= '9' then c as int - '0' as int else c as int - 'A' as int + 10;
    DigitTable(v);
    assert Candump.UPPER[v] == c;
  }

  lemma ZeroDigit(d: nat)
    requires 0 < d < 16
    ensures DigitChar(d) != '0'
  {
  }

  lemma {:induction false} NoLeadingZero(n: nat, radix: Radix)
    ensures Printed(n, radix) != "" && (Printed(n, radix)[0] == '0' ==> n == 0)
    decreases n
  {
    if n >= radix {
      HigherDigits(n, radix);
      NoLeadingZero(n / radix, radix);
      assert Printed(n, radix)[0] == Printed(n / radix, radix)[0];
    } else if n > 0 {
      ZeroDigit(n);
    }
  }

  lemma HigherDigits(n: nat, radix: Radix)
    requires n >= radix
    ensures 0 < n / radix < n
  {
  }

  lemma PrintedIsShortest(n: nat, radix: Radix)
    ensures Candump.Shortest(Printed(n, radix), radix, n)
  {
    PrintedValue(n, radix);
    NumeralIff(Printed(n, radix), radix, n);
    PlainIsUpper(Printed(n, radix));
    NoLeadingZero(n, radix);
  }

  lemma FlagBytes()
    ensures HexByte(0) == "00" && HexByte(1) == "01"
  {
  }

  lemma Layout(iface: string, ts: Duration, f: Frame)
    ensures FormatLine(iface, ts, f)
            == "(" + (Printed(ts.secs, 10) + "." + Fixed(ts.nanos / 1000, 6, 10)) + ")" + " "
               + (iface + " " + (if f.fd then Printed(f.id, 16) + "##" + ((if f.brs then "01" else "00") + Hex(f.data))
                                 else Printed(f.id, 16) + "#" + Hex(f.data)))
  {
    FlagBytes();
  }

  /** Main result. What is printed, character by character. */
  lemma LinePrinted(iface: string, ts: Duration, f: Frame) returns (a: string, b: string, id: string, h: string)
    requires ts.Valid()
    ensures Candump.PrintedParts(FormatLine(iface, ts, f), iface, ts.secs, ts.nanos, f, a, b, id, h)
  {
    a, b := Printed(ts.secs, 10), Fixed(ts.nanos / 1000, 6, 10);
    id, h := Printed(f.id, 16), Hex(f.data);
    Layout(iface, ts, f);
    PrintedIsShortest(ts.secs, 10);
    PrintedIsShortest(f.id, 16);
    MicrosPrinted(ts);
    DataPrinted(f.data);
  }

  lemma MicrosPrinted(ts: Duration)
    requires ts.Valid()
    ensures var b := Fixed(ts.nanos / 1000, 6, 10);
            |b| == 6 && Candump.Numeral(b, 10, ts.nanos / 1000) && Candump.Upper(b)
  {
    assert Power(10, 6) == 1_000_000;
    FixedValue(ts.nanos / 1000, 6, 10);
    NumeralIff(Fixed(ts.nanos / 1000, 6, 10), 10, ts.nanos / 1000);
    PlainIsUpper(Fixed(ts.nanos / 1000, 6, 10));
  }

  lemma DataPrinted(data: seq<Octet>)
    ensures Candump.HexBytes(Hex(data), data) && Candump.Upper(Hex(data))
  {
    HexRoundTrip(data);
    UnhexIff(Hex(data), data);
    PlainIsUpper(Hex(data));
  }
}
