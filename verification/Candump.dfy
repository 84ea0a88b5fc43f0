/** The candump line format (src/recorder/mod.rs) as a reader of the documentation would check it, character by
    character: nothing here says how a line is printed or parsed. */
module Candump {
  import opened Frames

  // ---------------------------------------------------------------------------
  // Numbers
  // ---------------------------------------------------------------------------

  /** The digits, in the two spellings a reader accepts. */
  const UPPER := "0123456789ABCDEF"
  const LOWER := "0123456789abcdef"

  predicate IsDigit(c: char, v: nat) { v < 16 && (c == UPPER[v] || c == LOWER[v]) }

  /** The numeral `s` stands for `n`: its last digit is the remainder, the others stand for the quotient. The empty one
      stands for 0. */
  predicate Numeral(s: string, radix: nat, n: nat)
    requires radix >= 2
    decreases |s|
  {
    if s == "" then n == 0
    else IsDigit(s[|s| - 1], n % radix) && Numeral(s[..|s| - 1], radix, n / radix)
  }

  /** An unsigned number with at least one digit and perhaps a plus sign. */
  ghost predicate Unsigned(s: string, radix: nat, n: nat)
    requires radix >= 2
  {
    exists d :: d != "" && (s == d || s == "+" + d) && Numeral(d, radix, n)
  }

  /** Two digits for each byte. */
  predicate HexBytes(s: string, data: seq<Octet>) {
    |s| == 2 * |data|
    && forall k :: 0 <= k < |data| ==> IsDigit(s[2 * k], data[k] / 16) && IsDigit(s[2 * k + 1], data[k] % 16)
  }

  // ---------------------------------------------------------------------------
  // Timestamps
  // ---------------------------------------------------------------------------

  /** 10 to the power `e`. */
  function Ten(e: nat): nat { if e == 0 then 1 else 10 * Ten(e - 1) }

  /** Decimal digits, perhaps none, and perhaps a plus sign. */
  ghost predicate Spells(s: string, n: nat) { exists d :: (s == d || s == "+" + d) && Numeral(d, 10, n) }

  /** The fraction of a second, of which six characters count; digits that are missing at its end are zeros. */
  ghost predicate Fraction(f: string, nanos: nat) {
    var k := if |f| > 6 then 6 else |f|;
    exists m: nat :: Spells(f[..k], m) && nanos == m * Ten(9 - k)
  }

  ghost predicate Timestamp(s: string, secs: nat, nanos: nat) {
    && secs <= 0xFFFF_FFFF_FFFF_FFFF
    && if '.' !in s then Unsigned(s, 10, secs) && nanos == 0
       else exists w, f :: s == w + "." + f && '.' !in w && Unsigned(w, 10, secs) && Fraction(f, nanos)
  }

  // ---------------------------------------------------------------------------
  // Frames
  // ---------------------------------------------------------------------------

  predicate Doubled(s: string, c: char, i: nat) { i + 1 < |s| && s[i] == c && s[i + 1] == c }

  /** `s` is `w`, then a hash, then `rest`, and there are no two hashes in a row. */
  predicate ClassicParts(s: string, w: string, rest: string) {
    s == w + "#" + rest && '#' !in w && forall i :: 0 <= i < |s| ==> !Doubled(s, '#', i)
  }

  /** `s` is `w`, then two hashes, the first two in a row, then `rest`. */
  predicate FdParts(s: string, w: string, rest: string) {
    s == w + "##" + rest && forall i :: 0 <= i < |w| ==> !Doubled(s, '#', i)
  }

  ghost predicate Id(w: string, id: nat) { id <= 0xFFFF_FFFF && Unsigned(w, 16, id) }

  /** `ID#DATA`: the identifier is extended when it has more than 11 bits. */
  ghost predicate Classic(w: string, rest: string, f: Frame) {
    && Id(w, f.id) && HexBytes(rest, f.data)
    && f == Frame(f.id, f.id >= 2048, false, false, false, false, false, 0, 0, 0, false, f.data)
  }

  /** `ID##FLAGSDATA`: the lowest bit of the flags byte says BRS. */
  ghost predicate Fd(w: string, rest: string, f: Frame) {
    && Id(w, f.id) && |rest| >= 2 && HexBytes(rest[2..], f.data)
    && exists x :: HexBytes(rest[..2], [x])
         && f == Frame(f.id, false, false, true, x % 2 == 1, false, false, 0, 0, 0, false, f.data)
  }

  ghost predicate FrameText(s: string, f: Frame) {
    || (exists w, rest :: ClassicParts(s, w, rest) && Classic(w, rest, f))
    || (exists w, rest :: FdParts(s, w, rest) && Fd(w, rest, f))
  }

  ghost predicate NoId(w: string) { forall id: nat :: !Id(w, id) }

  ghost predicate NotHex(s: string) { forall data :: !HexBytes(s, data) }

  // ---------------------------------------------------------------------------
  // Lines
  // ---------------------------------------------------------------------------

  /** The 25 characters of Unicode's White_Space property. */
  const BLANKS :=
    "\t\n\U{0B}\U{0C}\r \U{85}\U{A0}\U{1680}\U{2000}\U{2001}\U{2002}\U{2003}\U{2004}\U{2005}\U{2006}\U{2007}\U{2008}"
    + "\U{2009}\U{200A}\U{2028}\U{2029}\U{202F}\U{205F}\U{3000}"

  predicate IsWord(s: string) { s != "" && forall i :: 0 <= i < |s| ==> s[i] !in BLANKS }

  predicate IsBlank(s: string) { forall i :: 0 <= i < |s| ==> s[i] in BLANKS }

  /** The line is some blanks, this word, and a rest that begins with a blank, if there is one. */
  predicate FirstWord(line: string, before: string, word: string, rest: string) {
    line == before + (word + rest) && IsBlank(before) && IsWord(word) && (rest == "" || rest[0] in BLANKS)
  }

  /** The line is these words, with blanks between them, before and after. */
  ghost predicate Words(line: string, words: seq<string>)
    decreases |words|
  {
    if words == [] then IsBlank(line)
    else exists before, rest :: FirstWord(line, before, words[0], rest) && Words(rest, words[1..])
  }

  /** Three words: a timestamp in parentheses, any name, and a frame. */
  ghost predicate Line(line: string, secs: nat, nanos: nat, f: Frame) {
    exists stamp, name, text, ts ::
      && Words(line, [stamp, name, text]) && Stamp(stamp, ts) && Timestamp(ts, secs, nanos) && FrameText(text, f)
  }

  predicate Stamp(stamp: string, ts: string) { stamp == "(" + ts + ")" }

  // ---------------------------------------------------------------------------
  // The printed form, one of those that can be read
  // ---------------------------------------------------------------------------

  predicate Upper(s: string) { forall i :: 0 <= i < |s| ==> s[i] in UPPER }

  /** A numeral without leading zeros. */
  predicate Shortest(s: string, radix: nat, n: nat)
    requires radix >= 2
  {
    s != "" && Numeral(s, radix, n) && Upper(s) && (s[0] == '0' ==> s == "0")
  }

  /** `(SECONDS.MICROS) NAME ID#DATA` or `(SECONDS.MICROS) NAME ID##FLAGSDATA`. */
  predicate PrintedParts(line: string, name: string, secs: nat, nanos: nat, f: Frame,
                         a: string, b: string, id: string, h: string)
  {
    && line == "(" + (a + "." + b) + ")" + " "
               + (name + " " + (if f.fd then id + "##" + ((if f.brs then "01" else "00") + h) else id + "#" + h))
    && Shortest(a, 10, secs) && Shortest(id, 16, f.id)
    && |b| == 6 && Numeral(b, 10, nanos / 1000) && Upper(b)
    && HexBytes(h, f.data) && Upper(h)
  }
}
