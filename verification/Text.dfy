/** Numbers, bytes and fields as text: the standard printers and parsers the recorder relies on. */
module Text {
  import opened Wrappers
  import opened Bits
  import opened Frames
  import Candump

  const DIGITS := "0123456789ABCDEF"

  type Radix = r: nat | 2 <= r <= 16 witness 10

  function DigitValue(c: char, radix: Radix): Option<nat> {
    var v := if '0' <= c <= '9' then c as int - '0' as int
             else if 'A' <= c <= 'F' then c as int - 'A' as int + 10
             else if 'a' <= c <= 'f' then c as int - 'a' as int + 10
             else 16;
    if v < radix then Some(v) else None
  }

  function DigitChar(d: nat): (c: char)
    requires d < 16
    ensures PlainChar(c)
  {
    DIGITS[d]
  }

  /** A digit as the printers write it. */
  predicate PlainChar(c: char) { '0' <= c <= '9' || 'A' <= c <= 'F' }

  predicate Plain(s: string) { forall i :: 0 <= i < |s| ==> PlainChar(s[i]) }

  lemma DigitRoundTrip(d: nat, radix: Radix)
    requires d < radix
    ensures DigitValue(DigitChar(d), radix) == Some(d)
  {
  }

  /** The usual representation, without leading zeros. */
  function Printed(n: nat, radix: Radix): string
    decreases n
  {
    if n < radix then [DigitChar(n)] else Printed(n / radix, radix) + [DigitChar(n % radix)]
  }

  /** The last `width` digits; for a number below radix^width this is the zero-padded representation. */
  function Fixed(n: nat, width: nat, radix: Radix): string
    decreases width
  {
    if width == 0 then "" else Fixed(n / radix, width - 1, radix) + [DigitChar(n % radix)]
  }

  function Value(s: string, radix: Radix): Option<nat>
    decreases |s|
  {
    if s == "" then Some(0)
    else match (Value(s[..|s| - 1], radix), DigitValue(s[|s| - 1], radix))
      case (Some(high), Some(d)) => Some(high * radix + d)
      case _ => None
  }

  /** Parsing an unsigned integer that must not exceed `max`: a leading plus is allowed, an empty text is not. */
  function ParseUnsigned(s: string, radix: Radix, max: nat): Option<nat> {
    var digits := if s != "" && s[0] == '+' then s[1..] else s;
    if digits == "" then None
    else match Value(digits, radix)
      case Some(n) => if n <= max then Some(n) else None
      case None => None
  }

  lemma Recompose(n: nat, radix: Radix)
    ensures n / radix * radix + n % radix == n
  {
  }

  /** Appending a digit. */
  lemma OneMoreDigit(high: string, h: nat, n: nat, radix: Radix)
    requires Value(high, radix) == Some(h) && h == n / radix
    ensures Value(high + [DigitChar(n % radix)], radix) == Some(n)
  {
    var s := high + [DigitChar(n % radix)];
    assert s[..|s| - 1] == high;
    DigitRoundTrip(n % radix, radix);
    Recompose(n, radix);
  }

  lemma {:induction false} PrintedValue(n: nat, radix: Radix)
    ensures Value(Printed(n, radix), radix) == Some(n) && Printed(n, radix) != "" && Plain(Printed(n, radix))
    decreases n
  {
    if n < radix {
      DigitRoundTrip(n, radix);
      assert [DigitChar(n)][..0] == "";
    } else {
      PrintedValue(n / radix, radix);
      OneMoreDigit(Printed(n / radix, radix), n / radix, n, radix);
    }
  }

  lemma ParsePrinted(n: nat, radix: Radix, max: nat)
    requires n <= max
    ensures ParseUnsigned(Printed(n, radix), radix, max) == Some(n)
  {
    PrintedValue(n, radix);
  }

  function Power(b: nat, e: nat): nat
    decreases e
  {
    if e == 0 then 1 else Power(b, e - 1) * b
  }

  lemma DropDigit(n: nat, radix: Radix, p: nat)
    requires n < p * radix
    ensures n / radix < p
  {
    Recompose(n, radix);
    Cancel(n / radix, p, radix);
  }

  lemma Cancel(q: nat, p: nat, radix: Radix)
    requires q * radix < p * radix
    ensures q < p
  {
  }

  lemma {:induction false} FixedValue(n: nat, width: nat, radix: Radix)
    requires n < Power(radix, width)
    ensures Value(Fixed(n, width, radix), radix) == Some(n)
    ensures |Fixed(n, width, radix)| == width && Plain(Fixed(n, width, radix))
    decreases width
  {
    if width > 0 {
      DropDigit(n, radix, Power(radix, width - 1));
      FixedValue(n / radix, width - 1, radix);
      OneMoreDigit(Fixed(n / radix, width - 1, radix), n / radix, n, radix);
    }
  }

  // ---------------------------------------------------------------------------
  // What numerals mean
  // ---------------------------------------------------------------------------

  lemma DigitIff(c: char, v: nat, radix: Radix)
    ensures DigitValue(c, radix) == Some(v) <==> v < radix && Candump.IsDigit(c, v)
  {
    if v < 16 {
      DigitTable(v);
      if 10 <= v {
        assert Candump.LOWER[v] == (v + 'a' as int - 10) as char;
      }
    }
  }

  lemma DigitTable(v: nat)
    requires v < 16
    ensures Candump.UPPER[v] as int == if v < 10 then v + '0' as int else v - 10 + 'A' as int
    ensures Candump.LOWER[v] as int == if v < 10 then v + '0' as int else v - 10 + 'a' as int
  {
  }

  lemma {:induction false} NumeralIff(s: string, radix: Radix, n: nat)
    ensures Value(s, radix) == Some(n) <==> Candump.Numeral(s, radix, n)
    decreases |s|
  {
    if s != "" {
      var high, c := s[..|s| - 1], s[|s| - 1];
      NumeralIff(high, radix, n / radix);
      DigitIff(c, n % radix, radix);
      Recompose(n, radix);
      if Value(s, radix) == Some(n) {
        LastDigit(n, Value(high, radix).value, DigitValue(c, radix).value, radix);
      }
    }
  }

  lemma LastDigit(n: nat, high: nat, d: nat, radix: Radix)
    requires n == high * radix + d && d < radix
    ensures n / radix == high && n % radix == d
  {
    Quotient(n, radix, high, d);
  }

  lemma UnsignedIff(s: string, radix: Radix, max: nat, n: nat)
    ensures ParseUnsigned(s, radix, max) == Some(n) <==> n <= max && Candump.Unsigned(s, radix, n)
  {
    var digits := if s != "" && s[0] == '+' then s[1..] else s;
    NumeralIff(digits, radix, n);
    PlusIsNoDigit(s, radix, n);
  }

  /** Which of the two readings applies is decided by the first character. */
  lemma PlusIsNoDigit(s: string, radix: Radix, n: nat)
    ensures var digits := if s != "" && s[0] == '+' then s[1..] else s;
            Candump.Unsigned(s, radix, n) <==> digits != "" && Candump.Numeral(digits, radix, n)
  {
    var digits := if s != "" && s[0] == '+' then s[1..] else s;
    if s != "" && s[0] == '+' {
      NoPlus(s, radix, n);
      assert s == "+" + digits;
    }
  }

  lemma {:induction false} NoPlus(s: string, radix: Radix, n: nat)
    requires s != "" && s[0] == '+'
    ensures !Candump.Numeral(s, radix, n)
    decreases |s|
  {
    if |s| > 1 {
      NoPlus(s[..|s| - 1], radix, n / radix);
    } else {
      DigitIff('+', n % radix, radix);
    }
  }

  // ---------------------------------------------------------------------------
  // Hexadecimal bytes
  // ---------------------------------------------------------------------------

  function HexByte(b: Octet): string { [DigitChar(b / 16), DigitChar(b % 16)] }

  function Hex(data: seq<Octet>): string
    decreases |data|
  {
    if data == [] then "" else HexByte(data[0]) + Hex(data[1..])
  }

  function Unhex(s: string): Option<seq<Octet>>
    decreases |s|
  {
    if s == "" then Some([])
    else if |s| == 1 then None
    else match (DigitValue(s[0], 16), DigitValue(s[1], 16), Unhex(s[2..]))
      case (Some(h), Some(l), Some(rest)) => Some([Pair(h, l)] + rest)
      case _ => None
  }

  function Pair(h: nat, l: nat): Octet { if h < 16 && l < 16 then 16 * h + l else 0 }

  lemma HexStep(b: Octet, rest: string, data: seq<Octet>)
    requires Unhex(rest) == Some(data)
    ensures Unhex(HexByte(b) + rest) == Some([b] + data)
  {
    DigitRoundTrip(b / 16, 16);
    DigitRoundTrip(b % 16, 16);
    assert (HexByte(b) + rest)[2..] == rest;
  }

  lemma {:induction false} HexRoundTrip(data: seq<Octet>)
    ensures Unhex(Hex(data)) == Some(data) && |Hex(data)| == 2 * |data| && Plain(Hex(data))
    decreases |data|
  {
    if data != [] {
      HexRoundTrip(data[1..]);
      HexStep(data[0], Hex(data[1..]), data[1..]);
      assert data == [data[0]] + data[1..];
    }
  }

  /** Decoding accepts exactly two digits for each byte, in either spelling. */
  lemma {:induction false} UnhexIff(s: string, data: seq<Octet>)
    ensures Unhex(s) == Some(data) <==> Candump.HexBytes(s, data)
    decreases |s|
  {
    if |s| >= 2 && data != [] {
      UnhexIff(s[2..], data[1..]);
      DigitIff(s[0], data[0] / 16, 16);
      DigitIff(s[1], data[0] % 16, 16);
      HexBytesStep(s, data);
      assert data == [data[0]] + data[1..];
      PairIs(s[0], s[1], data[0]);
    }
  }

  lemma PairIs(a: char, b: char, x: Octet)
    ensures var (h, l) := (DigitValue(a, 16), DigitValue(b, 16));
            h.Some? && l.Some? ==> (Pair(h.value, l.value) == x <==> h.value == x / 16 && l.value == x % 16)
  {
  }

  lemma HexBytesStep(s: string, data: seq<Octet>)
    requires |s| >= 2 && data != []
    ensures Candump.HexBytes(s, data) <==>
            && Candump.IsDigit(s[0], data[0] / 16) && Candump.IsDigit(s[1], data[0] % 16)
            && Candump.HexBytes(s[2..], data[1..])
  {
    if Candump.HexBytes(s, data) {
      forall k | 0 <= k < |data| - 1
        ensures Candump.IsDigit(s[2..][2 * k], data[1..][k] / 16)
        ensures Candump.IsDigit(s[2..][2 * k + 1], data[1..][k] % 16)
      {
        assert Candump.IsDigit(s[2 * (k + 1)], data[k + 1] / 16);
      }
    }
    if Candump.HexBytes(s[2..], data[1..]) {
      forall k | 1 <= k < |data|
        ensures Candump.IsDigit(s[2 * k], data[k] / 16) && Candump.IsDigit(s[2 * k + 1], data[k] % 16)
      {
        assert Candump.IsDigit(s[2..][2 * (k - 1)], data[1..][k - 1] / 16);
      }
    }
  }

  // ---------------------------------------------------------------------------
  // Fields
  // ---------------------------------------------------------------------------

  /** The Unicode White_Space property. */
  predicate IsSpace(c: char) {
    var n := c as int;
    9 <= n <= 13 || n == 0x20 || n == 0x85 || n == 0xA0 || n == 0x1680
    || 0x2000 <= n <= 0x200A || n == 0x2028 || n == 0x2029 || n == 0x202F || n == 0x205F || n == 0x3000
  }

  lemma IsSpaceIff(c: char)
    ensures IsSpace(c) <==> c in Candump.BLANKS
  {
    BlankTable();
  }

  lemma BlankTable()
    ensures forall c :: c in Candump.BLANKS <==> exists i :: 0 <= i < 25 && Candump.BLANKS[i] == c
    ensures |Candump.BLANKS| == 25
  {
  }

  /** The length of the leading run of characters that are not spaces. */
  function WordLength(s: string): (n: nat)
    ensures n <= |s|
    ensures s != "" && !IsSpace(s[0]) ==> n > 0
    decreases |s|
  {
    if s == "" || IsSpace(s[0]) then 0 else 1 + WordLength(s[1..])
  }

  /** `split_whitespace`. */
  function Fields(s: string): seq<string>
    decreases |s|
  {
    if s == "" then []
    else if IsSpace(s[0]) then Fields(s[1..])
    else [s[..WordLength(s)]] + Fields(s[WordLength(s)..])
  }

  lemma {:induction false} WordEnds(x: string, c: char, y: string)
    requires IsSpace(c)
    ensures WordLength(x + [c] + y) == WordLength(x)
    decreases |x|
  {
    if x != "" {
      assert (x + [c] + y)[1..] == x[1..] + [c] + y;
      WordEnds(x[1..], c, y);
    }
  }

  lemma {:induction false} FieldsSplit(x: string, c: char, y: string)
    requires IsSpace(c)
    ensures Fields(x + [c] + y) == Fields(x) + Fields(y)
    decreases |x|
  {
    var s := x + [c] + y;
    if x == "" {
      assert s[1..] == y;
    } else if IsSpace(x[0]) {
      assert s[1..] == x[1..] + [c] + y;
      FieldsSplit(x[1..], c, y);
    } else {
      var n := WordLength(x);
      WordEnds(x, c, y);
      assert s[..n] == x[..n];
      assert s[n..] == x[n..] + [c] + y;
      FieldsSplit(x[n..], c, y);
    }
  }

  /** No spaces. */
  predicate Solid(s: string) { forall i :: 0 <= i < |s| ==> !IsSpace(s[i]) }

  lemma PlainIsSolid(s: string)
    requires Plain(s)
    ensures Solid(s)
  {
  }

  lemma {:induction false} WholeWord(s: string)
    requires Solid(s)
    ensures WordLength(s) == |s|
    decreases |s|
  {
    if s != "" {
      WholeWord(s[1..]);
    }
  }

  lemma OneField(s: string)
    requires s != "" && Solid(s)
    ensures Fields(s) == [s]
  {
    WholeWord(s);
    assert s[..|s|] == s;
    assert Fields(s[|s|..]) == [];
  }

  /** The leading run is a word, and a space or nothing follows it. */
  lemma {:induction false} FirstWord(s: string)
    requires s != "" && !IsSpace(s[0])
    ensures var n := WordLength(s);
            Candump.IsWord(s[..n]) && (s[n..] == "" || s[n..][0] in Candump.BLANKS)
    decreases |s|
  {
    var n := WordLength(s);
    IsSpaceIff(s[0]);
    if |s| > 1 && !IsSpace(s[1]) {
      FirstWord(s[1..]);
      assert s[n..] == s[1..][n - 1..];
      forall i | 0 <= i < n ensures s[..n][i] !in Candump.BLANKS {
        if i > 0 {
          assert s[..n][i] == s[1..][..n - 1][i - 1];
        }
      }
    } else if |s| > 1 {
      IsSpaceIff(s[1]);
    }
  }

  lemma {:induction false} WordThenBlank(w: string, rest: string)
    requires (forall i :: 0 <= i < |w| ==> w[i] !in Candump.BLANKS) && (rest == "" || rest[0] in Candump.BLANKS)
    ensures WordLength(w + rest) == |w|
    decreases |w|
  {
    if w == "" {
      if rest != "" {
        IsSpaceIff(rest[0]);
      }
      assert w + rest == rest;
    } else {
      IsSpaceIff(w[0]);
      assert (w + rest)[1..] == w[1..] + rest;
      WordThenBlank(w[1..], rest);
    }
  }

  lemma {:induction false} SkipBlanks(before: string, s: string)
    requires Candump.IsBlank(before)
    ensures Fields(before + s) == Fields(s)
    decreases |before|
  {
    if before == "" {
      assert before + s == s;
    } else {
      IsSpaceIff(before[0]);
      assert (before + s)[1..] == before[1..] + s;
      SkipBlanks(before[1..], s);
    }
  }

  lemma OneMoreBlank(c: char, s: string, words: seq<string>)
    requires c in Candump.BLANKS && Candump.Words(s, words)
    ensures Candump.Words([c] + s, words)
  {
    if words != [] {
      var before, rest :| Candump.FirstWord(s, before, words[0], rest) && Candump.Words(rest, words[1..]);
      BlankBefore(c, s, before, words[0], rest);
      assert Candump.FirstWord([c] + s, [c] + before, words[0], rest);
    }
  }

  lemma BlankBefore(c: char, s: string, before: string, w: string, rest: string)
    requires c in Candump.BLANKS && Candump.FirstWord(s, before, w, rest)
    ensures Candump.FirstWord([c] + s, [c] + before, w, rest)
  {
    assert [c] + s == ([c] + before) + (w + rest);
  }

  lemma OneMoreWord(s: string, before: string, w: string, rest: string, words: seq<string>)
    requires Candump.FirstWord(s, before, w, rest) && Candump.Words(rest, words)
    ensures Candump.Words(s, [w] + words)
  {
    assert ([w] + words)[1..] == words && ([w] + words)[0] == w;
  }

  lemma StartsWithWord(s: string)
    requires s != "" && !IsSpace(s[0])
    ensures Candump.FirstWord(s, "", s[..WordLength(s)], s[WordLength(s)..])
  {
    var n := WordLength(s);
    FirstWord(s);
    assert s == "" + (s[..n] + s[n..]);
  }

  lemma {:induction false} FieldsAreWords(s: string)
    ensures Candump.Words(s, Fields(s))
    decreases |s|
  {
    if s != "" {
      if IsSpace(s[0]) {
        FieldsAreWords(s[1..]);
        IsSpaceIff(s[0]);
        OneMoreBlank(s[0], s[1..], Fields(s[1..]));
        assert s == [s[0]] + s[1..];
      } else {
        var n := WordLength(s);
        StartsWithWord(s);
        FieldsAreWords(s[n..]);
        OneMoreWord(s, "", s[..n], s[n..], Fields(s[n..]));
      }
    }
  }

  /** The fields of a line are its words, and nothing else is. */
  lemma {:induction false} FieldsIff(s: string, words: seq<string>)
    ensures Fields(s) == words <==> Candump.Words(s, words)
    decreases |words|
  {
    FieldsAreWords(s);
    if Candump.Words(s, words) {
      if words == [] {
        SkipBlanks(s, "");
        assert s + "" == s;
      } else {
        var before, rest :| Candump.FirstWord(s, before, words[0], rest) && Candump.Words(rest, words[1..]);
        FieldsIff(rest, words[1..]);
        OneWordFirst(s, before, words[0], rest);
        assert [words[0]] + words[1..] == words;
      }
    }
  }

  lemma OneWordFirst(s: string, before: string, w: string, rest: string)
    requires Candump.FirstWord(s, before, w, rest)
    ensures Fields(s) == [w] + Fields(rest)
  {
    SkipBlanks(before, w + rest);
    WordThenBlank(w, rest);
    IsSpaceIff(w[0]);
    assert (w + rest)[..|w|] == w && (w + rest)[|w|..] == rest;
  }
}
