/**
 The two encoding/json services that the terse codec of internal/terse leans on, at the level of RFC 8259:
 string literals (section 7) as json.Marshal writes and json.Unmarshal reads them, and number literals (section 6).

 A `char` is a Unicode code point.

 Escaping and unescaping are inverse on every string; a number literal has only characters that no delimiter, space
 or letter can end early.
 */
module JsonString {
  import opened Text

  // ----- Hexadecimal -----

  function HexDigit(n: nat): char
    requires n < 16
  {
    if n < 10 then ('0' as int + n) as char else ('a' as int + n - 10) as char
  }

  function HexValue(c: char): Option<nat> {
    if '0' <= c <= '9' then Some(c as int - '0' as int)
    else if 'a' <= c <= 'f' then Some(c as int - 'a' as int + 10)
    else if 'A' <= c <= 'F' then Some(c as int - 'A' as int + 10)
    else None
  }

  lemma {:induction false} HexRoundTrip(n: nat)
    requires n < 16
    ensures HexValue(HexDigit(n)) == Some(n)
  {
  }

  /** Four hexadecimal digits at the front of s. */
  function Hex4(s: string): (n: Option<nat>)
    ensures n.Some? ==> n.value < 0x10000
  {
    if |s| < 4 then None
    else
      var (a, b, c, d) := (HexValue(s[0]), HexValue(s[1]), HexValue(s[2]), HexValue(s[3]));
      if a.None? || b.None? || c.None? || d.None? then None
      else if a.value >= 16 || b.value >= 16 || c.value >= 16 || d.value >= 16 then None
      else Some(0x1000 * a.value + 0x100 * b.value + 0x10 * c.value + d.value)
  }

  // ----- Writing a string literal -----

  const BACKSPACE: char := '\U{08}'
  const FORM_FEED: char := '\U{0C}'

  function EscapeHex(n: nat): string
    requires n < 0x10000
  {
    ['\\', 'u', HexDigit(n / 0x1000), HexDigit(n / 0x100 % 0x10), HexDigit(n / 0x10 % 0x10), HexDigit(n % 0x10)]
  }

  /** One character of a literal: json.Marshal also escapes what HTML and JavaScript treat specially. */
  function EscapeChar(c: char): (s: string)
    ensures |s| > 0
  {
    if c == '"' || c == '\\' then ['\\', c]
    else if c == BACKSPACE then "\\b"
    else if c == FORM_FEED then "\\f"
    else if c == '\n' then "\\n"
    else if c == '\r' then "\\r"
    else if c == '\t' then "\\t"
    else if c < ' ' || c == '<' || c == '>' || c == '&' || c == '\U{2028}' || c == '\U{2029}' then EscapeHex(c as int)
    else [c]
  }

  function Escape(s: string): string {
    if s == "" then "" else EscapeChar(s[0]) + Escape(s[1..])
  }

  /** json.Marshal of a string. */
  function Quote(s: string): string {
    "\"" + Escape(s) + "\""
  }

  // ----- Reading a string literal -----

  const REPLACEMENT: char := '\U{FFFD}'

  predicate IsSurrogate(n: nat) {
    0xD800 <= n < 0xE000
  }

  /** The code point that two surrogates encode, when they are a high one and a low one. */
  function SurrogatePair(high: nat, low: nat): Option<char> {
    if 0xD800 <= high < 0xDC00 && 0xDC00 <= low < 0xE000 then
      Some((0x10000 + 0x400 * (high - 0xD800) + (low - 0xDC00)) as char)
    else None
  }

  function SimpleEscape(c: char): Option<char> {
    match c
    case '"' => Some('"')
    case '\\' => Some('\\')
    case '/' => Some('/')
    case 'b' => Some(BACKSPACE)
    case 'f' => Some(FORM_FEED)
    case 'n' => Some('\n')
    case 'r' => Some('\r')
    case 't' => Some('\t')
    case _ => None
  }

  /** The text of a literal's inside; None when it is not one. */
  function Unescape(s: string): Option<string>
    decreases |s|
  {
    if s == "" then Some("")
    else if s[0] != '\\' then
      if s[0] < ' ' || s[0] == '"' then None else Prepend([s[0]], Unescape(s[1..]))
    else if |s| < 2 then None
    else if s[1] != 'u' then
      var c := SimpleEscape(s[1]);
      if c.None? then None else Prepend([c.value], Unescape(s[2..]))
    else
      var n := Hex4(s[2..]);
      if n.None? then None
      else if !IsSurrogate(n.value) then Prepend([n.value as char], Unescape(s[6..]))
      else
        var low := if |s| >= 12 && s[6] == '\\' && s[7] == 'u' then Hex4(s[8..]) else None;
        var pair := if low.Some? then SurrogatePair(n.value, low.value) else None;
        if pair.Some? then Prepend([pair.value], Unescape(s[12..]))
        else Prepend([REPLACEMENT], Unescape(s[6..]))
  }

  function Prepend(head: string, tail: Option<string>): Option<string> {
    if tail.None? then None else Some(head + tail.value)
  }

  /** json.Unmarshal of a string literal. */
  function Unquote(literal: string): Option<string> {
    if |literal| < 2 || literal[0] != '"' || literal[|literal| - 1] != '"' then None
    else Unescape(literal[1..|literal| - 1])
  }

  lemma {:induction false} HexDigitsAddUp(n: nat)
    requires n < 0x10000
    ensures n == 0x1000 * (n / 0x1000) + 0x100 * (n / 0x100 % 0x10) + 0x10 * (n / 0x10 % 0x10) + n % 0x10
  {
    assert n / 0x100 == 0x10 * (n / 0x1000) + n / 0x100 % 0x10;
    assert n / 0x10 == 0x10 * (n / 0x100) + n / 0x10 % 0x10;
    assert n == 0x10 * (n / 0x10) + n % 0x10;
  }

  lemma {:induction false} Hex4Digits(a: nat, b: nat, c: nat, d: nat, rest: string)
    requires a < 16 && b < 16 && c < 16 && d < 16
    ensures Hex4([HexDigit(a), HexDigit(b), HexDigit(c), HexDigit(d)] + rest) == Some(0x1000 * a + 0x100 * b + 0x10 * c + d)
  {
    HexRoundTrip(a);
    HexRoundTrip(b);
    HexRoundTrip(c);
    HexRoundTrip(d);
  }

  lemma {:induction false} Hex4RoundTrip(n: nat, rest: string)
    requires n < 0x10000
    ensures Hex4(EscapeHex(n)[2..] + rest) == Some(n)
  {
    var (a, b, c, d) := (n / 0x1000, n / 0x100 % 0x10, n / 0x10 % 0x10, n % 0x10);
    assert EscapeHex(n)[2..] == [HexDigit(a), HexDigit(b), HexDigit(c), HexDigit(d)];
    Hex4Digits(a, b, c, d, rest);
    HexDigitsAddUp(n);
  }

  lemma {:induction false} UnescapeChar(c: char, rest: string)
    ensures Unescape(EscapeChar(c) + rest) == Prepend([c], Unescape(rest))
  {
    var s := EscapeChar(c) + rest;
    if |EscapeChar(c)| == 1 {
      assert s[1..] == rest;
    } else if |EscapeChar(c)| == 2 {
      assert s[2..] == rest;
    } else {
      assert s[2..] == EscapeHex(c as int)[2..] + rest;
      Hex4RoundTrip(c as int, rest);
      assert s[6..] == rest;
    }
  }

  lemma {:induction false} UnescapeEscape(s: string)
    ensures Unescape(Escape(s)) == Some(s)
  {
    if s != "" {
      UnescapeEscape(s[1..]);
      UnescapeChar(s[0], Escape(s[1..]));
      assert [s[0]] + s[1..] == s;
    }
  }

  /** Every string survives being written as a literal and read back. */
  lemma {:induction false} UnquoteQuote(s: string)
    ensures Unquote(Quote(s)) == Some(s)
  {
    UnescapeEscape(s);
    assert Quote(s)[1..|Quote(s)| - 1] == Escape(s);
  }

  // ----- Number literals -----

  /** Drops the digits at the front of s. */
  function SkipDigits(s: string): (rest: string)
    ensures |rest| <= |s|
  {
    if |s| > 0 && IsDigit(s[0]) then SkipDigits(s[1..]) else s
  }

  predicate IsExponent(s: string) {
    if s == "" then true
    else if s[0] != 'e' && s[0] != 'E' then false
    else
      var digits := if |s| > 1 && (s[1] == '+' || s[1] == '-') then s[2..] else s[1..];
      digits != "" && SkipDigits(digits) == ""
  }

  predicate IsFraction(s: string) {
    if s != "" && s[0] == '.' then
      SkipDigits(s[1..]) != s[1..] && IsExponent(SkipDigits(s[1..]))
    else IsExponent(s)
  }

  /** `-? (0 | [1-9][0-9]*) (. [0-9]+)? ([eE] [+-]? [0-9]+)?` */
  predicate IsNumber(s: string) {
    var t := if s != "" && s[0] == '-' then s[1..] else s;
    t != "" && IsDigit(t[0]) && IsFraction(if t[0] == '0' then t[1..] else SkipDigits(t))
  }

  predicate IsJsonSpace(c: char) {
    c == ' ' || c == '\t' || c == '\r' || c == '\n'
  }

  /** parseNumber of decode.go: the one number a text holds, space around it allowed. */
  function ParseNumber(s: string): Option<string> {
    var trimmed := Trim(s, IsJsonSpace);
    if IsNumber(trimmed) then Some(trimmed) else None
  }

  predicate IsNumberChar(c: char) {
    IsDigit(c) || c == '-' || c == '+' || c == '.' || c == 'e' || c == 'E'
  }

  predicate NumberChars(s: string) {
    forall i :: 0 <= i < |s| ==> IsNumberChar(s[i])
  }

  lemma {:induction false} SkipDigitsChars(s: string)
    requires NumberChars(SkipDigits(s))
    ensures NumberChars(s)
  {
    if |s| > 0 && IsDigit(s[0]) {
      SkipDigitsChars(s[1..]);
      assert forall i :: 1 <= i < |s| ==> s[i] == s[1..][i - 1];
    }
  }

  lemma {:induction false} ConsChars(s: string)
    requires s != "" && IsNumberChar(s[0]) && NumberChars(s[1..])
    ensures NumberChars(s)
  {
    assert forall i :: 1 <= i < |s| ==> s[i] == s[1..][i - 1];
  }

  lemma {:induction false} ExponentChars(s: string)
    requires IsExponent(s)
    ensures NumberChars(s)
  {
    if s != "" {
      if |s| > 1 && (s[1] == '+' || s[1] == '-') {
        SkipDigitsChars(s[2..]);
        assert s[2..] == s[1..][1..];
        ConsChars(s[1..]);
      } else {
        SkipDigitsChars(s[1..]);
      }
      ConsChars(s);
    }
  }

  lemma {:induction false} FractionChars(s: string)
    requires IsFraction(s)
    ensures NumberChars(s)
  {
    if s != "" && s[0] == '.' {
      ExponentChars(SkipDigits(s[1..]));
      SkipDigitsChars(s[1..]);
      ConsChars(s);
    } else {
      ExponentChars(s);
    }
  }

  /** A number literal has only these characters, so no delimiter, space or letter ends it early. */
  lemma {:induction false} NumberHasNumberChars(s: string)
    requires IsNumber(s)
    ensures s != "" && NumberChars(s) && !(s[0] == 'e') && ParseNumber(s) == Some(s)
  {
    var t := if s[0] == '-' then s[1..] else s;
    if t[0] == '0' {
      FractionChars(t[1..]);
      ConsChars(t);
    } else {
      FractionChars(SkipDigits(t));
      SkipDigitsChars(t);
    }
    if s[0] == '-' {
      ConsChars(s);
    }
    assert IsNumberChar(s[0]) && IsNumberChar(s[|s| - 1]);
    assert Trim(s, IsJsonSpace) == s;
  }
}
