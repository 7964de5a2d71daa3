/**
 Text primitives shared by the other modules: splitting at line feeds, joining, the CRLF fold that every
 reader applies first, trimming, and decimal numerals.

 A `char` stands for one byte of a Go string, or for one code point where a module says so.  All separators
 are ASCII, so the two readings agree on valid UTF-8.

 The lemmas on regrouping concatenations are for the other modules: equality of sequences is extensional, and naming
 the few rearrangements that come up keeps it out of longer proofs.
 */
module Text {
  datatype Option<+T> = None | Some(value: T)

  datatype Result<+T, +E> = Ok(value: T) | Err(error: E)

  function Min(a: int, b: int): int {
    if a <= b then a else b
  }

  function Max(a: int, b: int): int {
    if a >= b then a else b
  }

  predicate HasPrefix(s: string, prefix: string) {
    prefix <= s
  }

  // ----- Regrouping concatenations -----

  lemma {:induction false} Regroup3<T>(a: seq<T>, b: seq<T>, c: seq<T>)
    ensures (a + b) + c == a + (b + c)
  {
  }

  lemma {:induction false} Regroup4<T>(a: seq<T>, b: seq<T>, c: seq<T>, d: seq<T>)
    ensures ((a + b) + c) + d == a + (b + (c + d))
  {
  }

  lemma {:induction false} TakeMore<T>(s: seq<T>, i: nat)
    requires i < |s|
    ensures s[..i + 1] == s[..i] + [s[i]]
  {
  }

  lemma {:induction false} TailOfConcat<T>(a: seq<T>, b: seq<T>)
    requires |a| > 0
    ensures (a + b)[0] == a[0] && (a + b)[1..] == a[1..] + b
  {
  }

  lemma {:induction false} EmptyConcat<T>(a: seq<T>, b: seq<T>)
    requires |a| == 0
    ensures a + b == b
  {
  }

  lemma {:induction false} SubsetIsSmaller<T>(a: set<T>, b: set<T>)
    requires a <= b
    ensures |a| <= |b|
  {
    assert b == a + (b - a);
  }

  // ----- Characters -----

  /** unicode.IsSpace. */
  predicate IsSpace(c: char) {
    || '\t' <= c <= '\r' || c == ' ' || c == '\U{85}' || c == '\U{A0}' || c == '\U{1680}'
    || '\U{2000}' <= c <= '\U{200A}' || c == '\U{2028}' || c == '\U{2029}' || c == '\U{202F}'
    || c == '\U{205F}' || c == '\U{3000}'
  }

  // ----- Lines -----

  predicate LfFree(s: string) {
    '\n' !in s
  }

  predicate AllLfFree(lines: seq<string>) {
    forall i :: 0 <= i < |lines| ==> LfFree(lines[i])
  }

  /** `strings.Split(s, "\n")`. */
  function Split(s: string): (lines: seq<string>)
    ensures |lines| > 0
    ensures AllLfFree(lines)
    ensures |lines[0]| <= |s|
  {
    if s == "" then
      [""]
    else
      var rest := Split(s[1..]);
      if s[0] == '\n' then [""] + rest else [[s[0]] + rest[0]] + rest[1..]
  }

  /** `strings.Join(lines, "\n")`. */
  function Join(lines: seq<string>): string {
    if |lines| == 0 then ""
    else if |lines| == 1 then lines[0]
    else lines[0] + "\n" + Join(lines[1..])
  }

  /** Every line followed by a line feed. */
  function Unlines(lines: seq<string>): string {
    if |lines| == 0 then "" else lines[0] + "\n" + Unlines(lines[1..])
  }

  lemma {:induction false} SplitPrepend(line: string, rest: string)
    requires LfFree(line)
    ensures Split(line + "\n" + rest) == [line] + Split(rest)
  {
    var s := line + "\n" + rest;
    if line == "" {
      assert s == "\n" + rest;
      assert s[1..] == rest;
    } else {
      assert LfFree(line[1..]) by {
        assert forall c :: c in line[1..] ==> c in line;
      }
      SplitPrepend(line[1..], rest);
      assert s[1..] == line[1..] + "\n" + rest;
      assert s[0] == line[0] && line[0] in line;
      assert [line[0]] + line[1..] == line;
    }
  }

  lemma {:induction false} SplitLfFree(line: string)
    requires LfFree(line)
    ensures Split(line) == [line]
  {
    if line != "" {
      assert LfFree(line[1..]) by {
        assert forall c :: c in line[1..] ==> c in line;
      }
      SplitLfFree(line[1..]);
      assert line[0] in line;
      assert [line[0]] + line[1..] == line;
    }
  }

  /** Joining what was split gives the text back. */
  lemma {:induction false} JoinSplit(s: string)
    ensures Join(Split(s)) == s
  {
    if s != "" {
      JoinSplit(s[1..]);
      var rest := Split(s[1..]);
      var lines := Split(s);
      assert s == [s[0]] + s[1..];
      if s[0] == '\n' {
        assert lines[1..] == rest;
      } else if |rest| == 1 {
        assert lines == [[s[0]] + rest[0]];
      } else {
        assert lines[1..] == rest[1..];
      }
    }
  }

  /** Splitting what was joined gives the lines back. */
  lemma {:induction false} SplitJoin(lines: seq<string>)
    requires |lines| > 0 && AllLfFree(lines)
    ensures Split(Join(lines)) == lines
  {
    if |lines| == 1 {
      SplitLfFree(lines[0]);
    } else {
      SplitJoin(lines[1..]);
      SplitPrepend(lines[0], Join(lines[1..]));
    }
  }

  lemma {:induction false} SplitUnlines(lines: seq<string>, rest: string)
    requires AllLfFree(lines)
    ensures Split(Unlines(lines) + rest) == lines + Split(rest)
  {
    if |lines| == 0 {
      assert Unlines(lines) + rest == rest;
    } else {
      SplitUnlines(lines[1..], rest);
      SplitPrepend(lines[0], Unlines(lines[1..]) + rest);
      assert Unlines(lines) + rest == lines[0] + "\n" + (Unlines(lines[1..]) + rest);
      assert lines == [lines[0]] + lines[1..];
    }
  }

  lemma {:induction false} UnlinesConcat(a: seq<string>, b: seq<string>)
    ensures Unlines(a + b) == Unlines(a) + Unlines(b)
  {
    if |a| == 0 {
      EmptyConcat(a, b);
    } else {
      UnlinesConcat(a[1..], b);
      TailOfConcat(a, b);
      Regroup3(a[0] + "\n", Unlines(a[1..]), Unlines(b));
    }
  }

  // ----- CRLF -----

  /** `strings.ReplaceAll(s, "\r\n", "\n")`. */
  function FoldCrlf(s: string): string {
    if s == "" then ""
    else if |s| >= 2 && s[0] == '\r' && s[1] == '\n' then "\n" + FoldCrlf(s[2..])
    else [s[0]] + FoldCrlf(s[1..])
  }

  predicate EndsInCr(line: string) {
    |line| > 0 && line[|line| - 1] == '\r'
  }

  function StripCr(line: string): string {
    if EndsInCr(line) then line[..|line| - 1] else line
  }

  lemma {:induction false} FoldPrepend(line: string, rest: string)
    requires LfFree(line)
    ensures FoldCrlf(line + "\n" + rest) == StripCr(line) + "\n" + FoldCrlf(rest)
  {
    var s := line + "\n" + rest;
    if line == "" {
      assert s == "\n" + rest;
      assert s[1..] == rest;
    } else if |line| == 1 && line[0] == '\r' {
      assert s[0] == '\r' && s[1] == '\n';
      assert s[2..] == rest;
    } else {
      assert LfFree(line[1..]) by {
        assert forall c :: c in line[1..] ==> c in line;
      }
      FoldPrepend(line[1..], rest);
      assert s[1..] == line[1..] + "\n" + rest;
      assert s[0] == line[0];
      assert s[1] == if |line| > 1 then line[1] else '\n';
      if |line| > 1 { assert line[1] in line; }
      assert StripCr(line) == [line[0]] + StripCr(line[1..]);
    }
  }

  function StripCrs(lines: seq<string>): (stripped: seq<string>)
    ensures |stripped| == |lines|
  {
    if |lines| == 0 then [] else [StripCr(lines[0])] + StripCrs(lines[1..])
  }

  lemma {:induction false} StripCrsElements(lines: seq<string>)
    ensures forall i :: 0 <= i < |lines| ==> StripCrs(lines)[i] == StripCr(lines[i])
  {
    if |lines| > 0 {
      StripCrsElements(lines[1..]);
      assert forall i :: 1 <= i < |lines| ==> lines[i] == lines[1..][i - 1] && StripCrs(lines)[i] == StripCrs(lines[1..])[i - 1];
    }
  }

  lemma {:induction false} StripCrsAdd(a: seq<string>, b: seq<string>)
    ensures StripCrs(a + b) == StripCrs(a) + StripCrs(b)
  {
    if |a| == 0 {
      EmptyConcat(a, b);
    } else {
      StripCrsAdd(a[1..], b);
      TailOfConcat(a, b);
      Regroup3([StripCr(a[0])], StripCrs(a[1..]), StripCrs(b));
    }
  }

  /** Folding CRLF in a text of whole lines drops one carriage return from the end of each line. */
  lemma {:induction false} FoldUnlines(lines: seq<string>)
    requires AllLfFree(lines)
    ensures FoldCrlf(Unlines(lines)) == Unlines(StripCrs(lines))
  {
    if |lines| > 0 {
      FoldUnlines(lines[1..]);
      FoldPrepend(lines[0], Unlines(lines[1..]));
    }
  }

  // ----- Trimming -----

  /** `strings.TrimLeftFunc`. */
  function TrimLeft(s: string, cut: char -> bool): string {
    if |s| > 0 && cut(s[0]) then TrimLeft(s[1..], cut) else s
  }

  function TrimRight(s: string, cut: char -> bool): string {
    if |s| > 0 && cut(s[|s| - 1]) then TrimRight(s[..|s| - 1], cut) else s
  }

  function Trim(s: string, cut: char -> bool): string {
    TrimRight(TrimLeft(s, cut), cut)
  }

  // ----- Decimal numerals -----

  /** The largest value of Go's `int`. */
  const MAX_INT: nat := 0x7fff_ffff_ffff_ffff

  const MIN_INT: int := -0x8000_0000_0000_0000

  /** A sum of two values of `int`, as Go computes it. */
  function Wrap(n: int): (w: int)
    ensures MIN_INT <= w <= MAX_INT
    ensures MIN_INT <= n <= MAX_INT ==> w == n
  {
    (n + 0x8000_0000_0000_0000) % 0x1_0000_0000_0000_0000 - 0x8000_0000_0000_0000
  }

  predicate IsDigit(c: char) {
    '0' <= c <= '9'
  }

  predicate AllDigits(s: string) {
    forall i :: 0 <= i < |s| ==> IsDigit(s[i])
  }

  /** `fmt.Sprintf("%d", n)` for a non-negative n. */
  function Decimal(n: nat): (s: string)
    ensures |s| > 0 && AllDigits(s)
  {
    var digit := ('0' as int + n % 10) as char;
    if n < 10 then [digit] else Decimal(n / 10) + [digit]
  }

  lemma {:induction false} DigitsAreLfFree(s: string)
    requires AllDigits(s)
    ensures LfFree(s)
  {
  }

  function DigitsValue(s: string): nat
    requires AllDigits(s)
  {
    if s == "" then 0 else 10 * DigitsValue(s[..|s| - 1]) + (s[|s| - 1] as int - '0' as int)
  }

  /** `strconv.Atoi` with its range error ignored: too large a numeral reads as the largest `int`. */
  function Atoi(s: string): (n: nat)
    requires AllDigits(s)
    ensures n <= MAX_INT
  {
    Min(DigitsValue(s), MAX_INT)
  }

  lemma {:induction false} DecimalValue(n: nat)
    ensures DigitsValue(Decimal(n)) == n
  {
    if n >= 10 {
      DecimalValue(n / 10);
      assert Decimal(n)[..|Decimal(n)| - 1] == Decimal(n / 10);
    } else {
      assert Decimal(n)[..0] == "";
    }
  }

  lemma {:induction false} AtoiDecimal(n: nat)
    requires n <= MAX_INT
    ensures Atoi(Decimal(n)) == n
  {
    DecimalValue(n);
  }
}
