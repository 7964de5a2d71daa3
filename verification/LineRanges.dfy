/**
 Reading lines back from a spill: `selectRanges`, which takes a comma-separated list of line numbers and ranges.

 The lines come out in the order in which the list names them, as often as it names them.  Characters are bytes.
 */
module LineRanges {
  import opened Text
  import opened Utf8

  datatype Error = InvalidRange

  /** `strings.Split(s, ",")`. */
  function Parts(s: string): (parts: seq<string>)
    ensures |parts| > 0
  {
    if |s| == 0 then [""]
    else
      var rest := Parts(s[1..]);
      if s[0] == ',' then [""] + rest else [[s[0]] + rest[0]] + rest[1..]
  }

  /** The position of the first dash. */
  function DashAt(s: string): (at: Option<nat>)
    ensures at.Some? ==> at.value < |s| && s[at.value] == '-'
  {
    if |s| == 0 then None
    else if s[0] == '-' then Some(0)
    else
      var at := DashAt(s[1..]);
      if at.None? then None else Some(at.value + 1)
  }

  /** `strconv.Atoi`: an optional sign, digits, and the range of `int`. */
  function SignedAtoi(s: string): Option<int> {
    var signed := |s| > 0 && (s[0] == '+' || s[0] == '-');
    var digits := if signed then s[1..] else s;
    if digits == "" || !AllDigits(digits) then None
    else
      var value: int := DigitsValue(digits);
      if signed && s[0] == '-' then
        if value <= MAX_INT + 1 then Some(-value) else None
      else if value <= MAX_INT then Some(value) else None
  }

  /** One part: its first and last line number. */
  function ParsePart(part: string): Option<(nat, nat)> {
    var trimmed := TrimSpace(part);
    var dash := DashAt(trimmed);
    var start := SignedAtoi(if dash.Some? then trimmed[..dash.value] else trimmed);
    if start.None? || start.value < 1 then None
    else if dash.None? then Some((start.value, start.value))
    else
      var end := SignedAtoi(trimmed[dash.value + 1..]);
      if end.None? || end.value < start.value then None else Some((start.value, end.value))
  }

  /** The lines of a range, as far as there are any. */
  function LinesIn(lines: seq<string>, range: (nat, nat)): seq<string> {
    if range.0 < 1 || range.0 > |lines| || range.1 < range.0 then [] else lines[range.0 - 1..Min(range.1, |lines|)]
  }

  function Selected(lines: seq<string>, parts: seq<string>): Result<seq<string>, Error> {
    if |parts| == 0 then Ok([])
    else
      var range := ParsePart(parts[0]);
      if range.None? then Err(InvalidRange) else Before(LinesIn(lines, range.value), Selected(lines, parts[1..]))
  }

  function Before(first: seq<string>, rest: Result<seq<string>, Error>): Result<seq<string>, Error> {
    if rest.Ok? then Ok(first + rest.value) else rest
  }

  ghost function Selection(value: string, specification: string): Result<string, Error> {
    var lines := Selected(Split(value), Parts(specification));
    if lines.Ok? then Ok(Join(lines.value)) else Err(InvalidRange)
  }

  method SelectRanges(value: string, specification: string) returns (r: Result<string, Error>)
    ensures r == Selection(value, specification)
  {
    hide TrimSpace, SignedAtoi, DashAt, Split, Parts;
    var lines, parts := Split(value), Parts(specification);
    var output: seq<string> := [];
    assert parts[0..] == parts;
    BeforeNothing(Selected(lines, parts));
    for i := 0 to |parts|
      invariant Selected(lines, parts) == Before(output, Selected(lines, parts[i..]))
    {
      assert parts[i..][0] == parts[i] && parts[i..][1..] == parts[i + 1..];
      var trimmed := TrimSpace(parts[i]);
      var dash := DashAt(trimmed);
      var start := SignedAtoi(if dash.Some? then trimmed[..dash.value] else trimmed);
      if start.None? || start.value < 1 {
        return Err(InvalidRange);
      }
      var end := start.value;
      if dash.Some? {
        var read := SignedAtoi(trimmed[dash.value + 1..]);
        if read.None? || read.value < start.value {
          return Err(InvalidRange);
        }
        end := read.value;
      }
      var rest := Selected(lines, parts[i + 1..]);
      BeforeTwice(output, LinesIn(lines, (start.value, end)), rest);
      if start.value > |lines| {
        assert output + [] == output;
        continue;
      }
      if end > |lines| {
        end := |lines|;
      }
      output := output + lines[start.value - 1..end];
    }
    assert output + [] == output;
    return Ok(Join(output));
  }

  lemma {:induction false} BeforeNothing(rest: Result<seq<string>, Error>)
    ensures Before([], rest) == rest
  {
    if rest.Ok? { EmptyConcat([], rest.value); }
  }

  lemma {:induction false} BeforeTwice(a: seq<string>, b: seq<string>, rest: Result<seq<string>, Error>)
    ensures Before(a, Before(b, rest)) == Before(a + b, rest)
  {
    if rest.Ok? { Regroup3(a, b, rest.value); }
  }

  // ----- Ranges in their printed form -----

  datatype Run = Run(lo: nat, hi: nat)

  function RunText(run: Run): string {
    if run.lo == run.hi then Decimal(run.lo) else Decimal(run.lo) + "-" + Decimal(run.hi)
  }

  function RunsText(runs: seq<Run>): string {
    if |runs| == 0 then ""
    else if |runs| == 1 then RunText(runs[0])
    else RunText(runs[0]) + "," + RunsText(runs[1..])
  }

  /** The lines the runs name, in their order. */
  function LinesOf(lines: seq<string>, runs: seq<Run>): seq<string> {
    if |runs| == 0 then [] else LinesIn(lines, (runs[0].lo, runs[0].hi)) + LinesOf(lines, runs[1..])
  }

  predicate Readable(run: Run) {
    1 <= run.lo <= run.hi <= MAX_INT
  }

  predicate CommaFree(s: string) {
    ',' !in s
  }

  lemma {:induction false} PartsPrepend(part: string, rest: string)
    requires CommaFree(part)
    ensures Parts(part + "," + rest) == [part] + Parts(rest)
  {
    var s := part + "," + rest;
    if part == "" {
      assert s == "," + rest && s[1..] == rest;
    } else {
      assert CommaFree(part[1..]) by {
        assert forall c :: c in part[1..] ==> c in part;
      }
      PartsPrepend(part[1..], rest);
      assert s[1..] == part[1..] + "," + rest;
      assert s[0] == part[0] && part[0] in part;
      assert [part[0]] + part[1..] == part;
    }
  }

  lemma {:induction false} OnePart(part: string)
    requires CommaFree(part)
    ensures Parts(part) == [part]
  {
    if part != "" {
      assert CommaFree(part[1..]) by {
        assert forall c :: c in part[1..] ==> c in part;
      }
      OnePart(part[1..]);
      assert part[0] in part && [part[0]] + part[1..] == part;
    }
  }

  lemma {:induction false} NoDash(s: string)
    requires AllDigits(s)
    ensures DashAt(s).None?
  {
    if |s| > 0 {
      NoDash(s[1..]);
    }
  }

  lemma {:induction false} DashAfterDigits(s: string, rest: string)
    requires AllDigits(s)
    ensures DashAt(s + ("-" + rest)) == Some(|s|)
  {
    var all := s + ("-" + rest);
    if |s| == 0 {
      assert all[0] == '-';
    } else {
      TailOfConcat(s, "-" + rest);
      DashAfterDigits(s[1..], rest);
    }
  }

  lemma {:induction false} DecimalIsRead(n: nat)
    requires n <= MAX_INT
    ensures SignedAtoi(Decimal(n)) == Some(n)
  {
    DecimalValue(n);
    assert IsDigit(Decimal(n)[0]);
  }

  lemma {:induction false} NothingToTrim(s: string)
    requires |s| > 0 && IsDigit(s[0]) && IsDigit(s[|s| - 1])
    ensures TrimSpace(s) == s
  {
  }

  lemma {:induction false} NumberIsRead(n: nat)
    requires 1 <= n <= MAX_INT
    ensures ParsePart(Decimal(n)) == Some((n, n))
  {
    hide TrimSpace, SignedAtoi, DashAt, Decimal, AllDigits;
    DecimalIsRead(n);
    DigitsAtEnds(Decimal(n));
    NothingToTrim(Decimal(n));
    NoDash(Decimal(n));
  }

  lemma {:induction false} DigitsAtEnds(s: string)
    requires AllDigits(s) && |s| > 0
    ensures IsDigit(s[0]) && IsDigit(s[|s| - 1])
  {
  }

  lemma {:induction false} RangeIsRead(lo: nat, hi: nat)
    requires 1 <= lo <= hi <= MAX_INT
    ensures ParsePart(Decimal(lo) + "-" + Decimal(hi)) == Some((lo, hi))
  {
    hide TrimSpace, SignedAtoi, DashAt, Decimal, AllDigits;
    var a, b := Decimal(lo), Decimal(hi);
    var text := a + "-" + b;
    DecimalIsRead(lo);
    DecimalIsRead(hi);
    DigitsAtEnds(a);
    DigitsAtEnds(b);
    assert text[0] == a[0] && text[|text| - 1] == b[|b| - 1];
    NothingToTrim(text);
    Regroup3(a, "-", b);
    DashAfterDigits(a, b);
    assert text[..|a|] == a && text[|a| + 1..] == b;
  }

  lemma {:induction false} RunIsCommaFree(run: Run)
    ensures CommaFree(RunText(run))
  {
    var a, b := Decimal(run.lo), Decimal(run.hi);
    assert forall c :: c in a || c in b ==> IsDigit(c);
    assert forall c :: c in a + "-" + b ==> c in a || c == '-' || c in b;
  }

  /** A printed run is read as what it says. */
  lemma {:induction false} RunIsRead(run: Run)
    requires Readable(run)
    ensures ParsePart(RunText(run)) == Some((run.lo, run.hi)) && CommaFree(RunText(run))
  {
    hide ParsePart;
    RunIsCommaFree(run);
    NumberIsRead(run.lo);
    RangeIsRead(run.lo, run.hi);
  }

  lemma {:induction false} RunsAreSelected(lines: seq<string>, runs: seq<Run>)
    requires |runs| > 0 && forall i :: 0 <= i < |runs| ==> Readable(runs[i])
    ensures Selected(lines, Parts(RunsText(runs))) == Ok(LinesOf(lines, runs))
  {
    RunIsRead(runs[0]);
    var text, first := RunText(runs[0]), LinesIn(lines, (runs[0].lo, runs[0].hi));
    if |runs| == 1 {
      OnePart(text);
      assert [text][1..] == [] && runs[1..] == [];
    } else {
      RunsAreSelected(lines, runs[1..]);
      var rest := Parts(RunsText(runs[1..]));
      PartsPrepend(text, RunsText(runs[1..]));
      assert ([text] + rest)[0] == text && ([text] + rest)[1..] == rest;
    }
  }

  /** A printed list of runs selects exactly the lines it names. */
  lemma {:induction false} PrintedRunsSelect(value: string, runs: seq<Run>)
    requires |runs| > 0 && forall i :: 0 <= i < |runs| ==> Readable(runs[i])
    ensures Selection(value, RunsText(runs)) == Ok(Join(LinesOf(Split(value), runs)))
  {
    RunsAreSelected(Split(value), runs);
  }

  // ----- What a list of ranges is -----

  /** An optional sign and digits, within the ints. */
  ghost predicate IsNumeral(s: string, n: int) {
    exists sign, digits :: IsSigned(s, n, sign, digits)
  }

  ghost predicate IsSigned(s: string, n: int, sign: string, digits: string) {
    && s == sign + digits && (sign == "" || sign == "+" || sign == "-")
    && digits != "" && AllDigits(digits) && MIN_INT <= n <= MAX_INT
    && n == (if sign == "-" then 0 - DigitsValue(digits) else DigitsValue(digits))
  }

  lemma {:induction false} NumeralsAreRead(s: string, n: int)
    ensures SignedAtoi(s) == Some(n) <==> IsNumeral(s, n)
  {
    if SignedAtoi(s) == Some(n) {
      var sign := if s[0] == '+' || s[0] == '-' then [s[0]] else "";
      var digits := if s[0] == '+' || s[0] == '-' then s[1..] else s;
      assert s == sign + digits;
      assert IsSigned(s, n, sign, digits);
    }
    if IsNumeral(s, n) {
      var sign, digits :| IsSigned(s, n, sign, digits);
      assert digits[0] == s[|sign|] && IsDigit(digits[0]);
      if sign == "" {
        assert s == digits;
      } else {
        assert s[0] == sign[0] && s[1..] == digits;
      }
    }
  }

  /** One number, or two with a dash between them, the second no smaller; no first number below one. */
  ghost predicate IsRange(text: string, first: nat, last: nat) {
    1 <= first <= last
    && ((first == last && IsNumeral(text, first) && '-' !in text)
        || exists a, b :: text == a + "-" + b && '-' !in a && IsNumeral(a, first) && IsNumeral(b, last))
  }

  lemma {:induction false} DashIsFirst(a: string, rest: string)
    requires '-' !in a
    ensures DashAt(a + ("-" + rest)) == Some(|a|) && DashAt(a).None?
  {
    if a != "" {
      assert (a + ("-" + rest))[1..] == a[1..] + ("-" + rest);
      assert a[0] in a && forall c :: c in a[1..] ==> c in a;
      DashIsFirst(a[1..], rest);
    }
  }

  lemma {:induction false} DashSplits(s: string)
    ensures DashAt(s).None? <==> '-' !in s
    ensures DashAt(s).Some? ==> '-' !in s[..DashAt(s).value]
  {
    if s != "" && s[0] != '-' {
      var rest := s[1..];
      DashSplits(rest);
      assert '-' in s <==> '-' in rest by {
        assert s == [s[0]] + rest;
      }
      if DashAt(rest).Some? {
        assert s[..DashAt(s).value] == [s[0]] + rest[..DashAt(rest).value];
      }
    }
  }

  /** A part of a list is read exactly when it is a range, white space around it aside. */
  lemma {:induction false} RangesAreRead(part: string, first: nat, last: nat)
    ensures ParsePart(part) == Some((first, last)) <==> IsRange(TrimSpace(part), first, last)
  {
    hide SignedAtoi, IsNumeral, TrimSpace, DashAt;
    var text := TrimSpace(part);
    DashSplits(text);
    if DashAt(text).None? {
      NumeralsAreRead(text, first);
      forall a: string, b: string ensures text != a + "-" + b {
        assert (a + "-" + b)[|a|] == '-';
      }
    } else {
      var k := DashAt(text).value;
      assert text == text[..k] + "-" + text[k + 1..];
      NumeralsAreRead(text[..k], first);
      NumeralsAreRead(text[k + 1..], last);
      if IsRange(text, first, last) {
        var a, b :| text == a + "-" + b && '-' !in a && IsNumeral(a, first) && IsNumeral(b, last);
        Regroup3(a, "-", b);
        DashIsFirst(a, b);
        assert text[..k] == a && text[k + 1..] == b;
      }
    }
  }

  /** A range, white space around it aside. */
  ghost predicate NamesLines(part: string) {
    exists first: nat, last: nat :: IsRange(TrimSpace(part), first, last)
  }

  /** A list is read exactly when every part of it is a range, and gives their lines one after the other. */
  lemma {:induction false} ListsAreRead(lines: seq<string>, parts: seq<string>)
    ensures Selected(lines, parts).Ok? <==> forall i :: 0 <= i < |parts| ==> NamesLines(parts[i])
    ensures forall a: nat, b: nat :: |parts| > 0 && IsRange(TrimSpace(parts[0]), a, b) && Selected(lines, parts).Ok? ==>
              && Selected(lines, parts[1..]).Ok?
              && Selected(lines, parts).value
                 == (if a > |lines| then [] else lines[a - 1..if b > |lines| then |lines| else b]) + Selected(lines, parts[1..]).value
  {
    hide ParsePart, IsRange, TrimSpace;
    if |parts| > 0 {
      var rest := parts[1..];
      ListsAreRead(lines, rest);
      assert forall i :: 0 < i < |parts| ==> parts[i] == rest[i - 1];
      forall a: nat, b: nat ensures ParsePart(parts[0]) == Some((a, b)) <==> IsRange(TrimSpace(parts[0]), a, b) {
        RangesAreRead(parts[0], a, b);
      }
      assert ParsePart(parts[0]).Some? <==> NamesLines(parts[0]) by {
        if ParsePart(parts[0]).Some? {
          var (a, b) := ParsePart(parts[0]).value;
          assert IsRange(TrimSpace(parts[0]), a, b);
        }
      }
      assert Selected(lines, parts).Ok? <==> NamesLines(parts[0]) && Selected(lines, rest).Ok?;
      forall a: nat, b: nat | IsRange(TrimSpace(parts[0]), a, b) ensures 1 <= a <= b {
        RangeIsProper(TrimSpace(parts[0]), a, b);
      }
    }
  }

  lemma {:induction false} RangeIsProper(text: string, first: nat, last: nat)
    requires IsRange(text, first, last)
    ensures 1 <= first <= last
  {
  }
}
