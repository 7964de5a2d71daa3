/** Patches as others write them: hunk headers with a count left out, and lines that say that a newline is missing. */
module PatchForms {
  import opened Text
  import opened Patch
  import opened PatchRoundTrip

  // ----- Headers with a count left out -----

  /** A range as it may be written: a start, and a count, which may be left out when it is one. */
  function RangeText(start: nat, count: Option<nat>): string {
    if count.None? then Decimal(start) else Decimal(start) + "," + Decimal(count.value)
  }

  function HeaderText(oldStart: nat, oldCount: Option<nat>, newStart: nat, newCount: Option<nat>, tail: string): string {
    "@@ -" + (RangeText(oldStart, oldCount) + (" +" + (RangeText(newStart, newCount) + (" @@" + tail))))
  }

  lemma {:induction false} ParseShortRange(start: string, rest: string)
    requires AllDigits(start) && start != "" && rest != "" && !IsDigit(rest[0]) && rest[0] != ','
    ensures ParseRange(start + rest) == Some(Range(start, "", rest))
  {
    DigitRunStops(start, rest);
    assert (start + rest)[..|start|] == start && (start + rest)[|start|..] == rest;
  }

  lemma {:induction false} ParseWrittenRange(start: nat, count: Option<nat>, rest: string)
    requires rest != "" && rest[0] == ' '
    ensures ParseRange(RangeText(start, count) + rest)
         == Some(Range(Decimal(start), if count.None? then "" else Decimal(count.value), rest))
  {
    if count.None? {
      ParseShortRange(Decimal(start), rest);
    } else {
      ParseSplitRange(Decimal(start), Decimal(count.value), rest);
    }
  }

  /** A count that is left out reads as one, whichever it is; what follows the second `@@` does not matter. */
  lemma {:induction false} ParseWrittenHeader(oldStart: nat, oldCount: Option<nat>, newStart: nat, newCount: Option<nat>, tail: string)
    requires oldStart <= MAX_INT && (oldCount.Some? ==> oldCount.value <= MAX_INT)
    ensures ParseHeader(HeaderText(oldStart, oldCount, newStart, newCount, tail))
         == Some(Header(oldStart, if oldCount.None? then 1 else oldCount.value))
  {
    hide ParseRange, RangeText, Decimal, Atoi, AllDigits;
    var end := " @@" + tail;
    var second := RangeText(newStart, newCount) + end;
    var line := HeaderText(oldStart, oldCount, newStart, newCount, tail);
    assert line[4..] == RangeText(oldStart, oldCount) + (" +" + second);
    ParseWrittenRange(oldStart, oldCount, " +" + second);
    assert (" +" + second)[2..] == second;
    ParseWrittenRange(newStart, newCount, end);
    AtoiDecimal(oldStart);
    if oldCount.Some? {
      AtoiDecimal(oldCount.value);
    }
  }

  // ----- Lines that the reader does not tell apart -----

  /** Both begin hunks, with the same numbers. */
  predicate SameHeader(h: string, h': string) {
    HasPrefix(h, "@@ ") && HasPrefix(h', "@@ ") && ParseHeader(h).Some? && ParseHeader(h) == ParseHeader(h')
  }

  /** What a line of a hunk, with more lines after it, does to what those are read as. */
  function BodyWith(line: string, rest: seq<string>, body: Result<HunkBody, PatchError>): Result<HunkBody, PatchError> {
    if HasPrefix(line, "@@ ") || HasPrefix(line, "--- ") || HasPrefix(line, "+++ ") then Ok(HunkBody([], [], [line] + rest))
    else if line == "\\ No newline at end of file" then body
    else if line == "" then Err(UnprefixedEmptyLine)
    else if line[0] != ' ' && line[0] != '-' && line[0] != '+' then Err(InvalidPrefix(line[0]))
    else if body.Err? then body
    else
      Ok(HunkBody(if line[0] == '+' then body.value.oldLines else [line[1..]] + body.value.oldLines,
                  if line[0] == '-' then body.value.newLines else [line[1..]] + body.value.newLines, body.value.rest))
  }

  lemma {:induction false} BodyCons(line: string, rest: seq<string>)
    requires |rest| > 0
    ensures ParseBody([line] + rest) == BodyWith(line, rest, ParseBody(rest))
  {
    var lines := [line] + rest;
    assert lines[0] == line && lines[1..] == rest;
  }

  lemma {:induction false} ConsFirst(a: seq<string>, b: seq<string>)
    requires |a| > 0
    ensures a + b == [a[0]] + (a[1..] + b) && a[0..] == a
  {
  }

  /** Two results that differ at most in the lines left over. */
  predicate SameRead(body: Result<HunkBody, PatchError>, body': Result<HunkBody, PatchError>) {
    && (body.Err? ==> body == body')
    && (body.Ok? ==> body'.Ok? && body.value.oldLines == body'.value.oldLines && body.value.newLines == body'.value.newLines)
  }

  /** The lines left over are the same, or the two lists from line k of a on. */
  predicate LeftFrom(body: Result<HunkBody, PatchError>, body': Result<HunkBody, PatchError>, a: seq<string>, b: seq<string>, b': seq<string>, k: nat) {
    body.Ok? && body'.Ok? ==>
      body.value.rest == body'.value.rest || (k <= |a| && body.value.rest == a[k..] + b && body'.value.rest == a[k..] + b')
  }

  /** Two endings that are read the same are read the same after the same lines. */
  lemma {:induction false} SameEndings(a: seq<string>, b: seq<string>, b': seq<string>) returns (k: nat)
    requires |b| > 0 && |b'| > 0 && SameRead(ParseBody(b), ParseBody(b'))
    requires LeftFrom(ParseBody(b), ParseBody(b'), [], b, b', 0)
    ensures SameRead(ParseBody(a + b), ParseBody(a + b')) && LeftFrom(ParseBody(a + b), ParseBody(a + b'), a, b, b', k)
    decreases |a|
  {
    hide ParseBody;
    if |a| == 0 {
      EmptyConcat(a, b);
      EmptyConcat(a, b');
      return 0;
    }
    ConsFirst(a, b);
    ConsFirst(a, b');
    BodyCons(a[0], a[1..] + b);
    BodyCons(a[0], a[1..] + b');
    var j := SameEndings(a[1..], b, b');
    if HasPrefix(a[0], "@@ ") || HasPrefix(a[0], "--- ") || HasPrefix(a[0], "+++ ") {
      return 0;
    }
    assert j <= |a[1..]| ==> a[1..][j..] == a[j + 1..];
    return j + 1;
  }

  /** And the hunks read from them are the same, if those read from the endings alone are. */
  lemma {:induction false} SameHunks(a: seq<string>, b: seq<string>, b': seq<string>)
    requires |b| > 0 && |b'| > 0 && SameRead(ParseBody(b), ParseBody(b')) && LeftFrom(ParseBody(b), ParseBody(b'), [], b, b', 0)
    requires ParseHunks(b) == ParseHunks(b')
    ensures ParseHunks(a + b) == ParseHunks(a + b')
    decreases |a|
  {
    hide ParseHeader, ParseBody;
    if |a| == 0 {
      EmptyConcat(a, b);
      EmptyConcat(a, b');
    } else {
      TailOfConcat(a, b);
      TailOfConcat(a, b');
      if ParseHeader(a[0]).None? {
        SameHunks(a[1..], b, b');
      } else {
        var k := SameEndings(a[1..], b, b');
        var body, body' := ParseBody(a[1..] + b), ParseBody(a[1..] + b');
        if body.Ok? && body.value.rest != body'.value.rest {
          SameHunks(a[1..][k..], b, b');
        }
      }
    }
  }

  /** Another header with the same numbers changes nothing. */
  lemma {:induction false} OtherHeader(a: seq<string>, h: string, h': string, b: seq<string>)
    requires SameHeader(h, h')
    ensures ParseHunks(a + ([h] + b)) == ParseHunks(a + ([h'] + b))
  {
    hide ParseHeader;
    assert EndsHunk([h] + b) && EndsHunk([h'] + b);
    EmptyConcat([][0..], [h] + b);
    EmptyConcat([][0..], [h'] + b);
    assert ([h] + b)[1..] == b && ([h'] + b)[1..] == b;
    SameHunks(a, [h] + b, [h'] + b);
  }

  lemma {:induction false} NoHeaderIsSkipped(line: string, b: seq<string>)
    requires ParseHeader(line).None?
    ensures ParseHunks([line] + b) == ParseHunks(b)
  {
    hide ParseHeader;
    assert ([line] + b)[0] == line && ([line] + b)[1..] == b;
  }

  lemma {:induction false} NoNewlineIsNoMark()
    ensures !HasPrefix(NO_NEWLINE, "@@ ") && !HasPrefix(NO_NEWLINE, "--- ") && !HasPrefix(NO_NEWLINE, "+++ ")
    ensures ParseHeader(NO_NEWLINE).None?
  {
    assert NO_NEWLINE[0] == '\\' && "@@ "[0] == '@' && "--- "[0] == '-' && "+++ "[0] == '+' && "@@ -"[0] == '@';
  }

  /** Neither does a line that says that a newline is missing, wherever it stands. */
  lemma {:induction false} NoNewlineIsSkipped(a: seq<string>, b: seq<string>)
    requires |b| > 0
    ensures ParseHunks(a + ([NO_NEWLINE] + b)) == ParseHunks(a + b)
  {
    hide ParseBody, ParseHunks;
    BodyCons(NO_NEWLINE, b);
    NoNewlineIsNoMark();
    NoHeaderIsSkipped(NO_NEWLINE, b);
    hide *;
    SameHunks(a, [NO_NEWLINE] + b, b);
  }

  // ----- Patches as texts -----

  /** Whole lines, or nothing. */
  predicate WholeLines(s: string) {
    s == "" || s[|s| - 1] == '\n'
  }

  /** A patch with one line more, as lines. */
  lemma {:induction false} LineAmong(pre: string, line: string, post: string) returns (a: seq<string>)
    requires WholeLines(pre) && LfFree(line)
    ensures Split(FoldCrlf(pre + (line + "\n" + post))) == a + ([StripCr(line)] + Split(FoldCrlf(post)))
    ensures Split(FoldCrlf(pre + post)) == a + Split(FoldCrlf(post))
    ensures a == if pre == "" then [] else Split(FoldCrlf(pre))[..|Split(FoldCrlf(pre))| - 1]
  {
    hide FoldCrlf, Split;
    var rest := line + "\n" + post;
    FoldPrepend(line, post);
    StripCrLfFree(line);
    SplitPrepend(StripCr(line), FoldCrlf(post));
    if pre == "" {
      EmptyConcat(pre, rest);
      EmptyConcat(pre, post);
      a := [];
      EmptyConcat(a, [StripCr(line)] + Split(FoldCrlf(post)));
      EmptyConcat(a, Split(FoldCrlf(post)));
    } else {
      FoldAfterLf(pre, rest);
      FoldAfterLf(pre, post);
      SplitAfterLf(FoldCrlf(pre), FoldCrlf(rest));
      SplitAfterLf(FoldCrlf(pre), FoldCrlf(post));
      a := Split(FoldCrlf(pre))[..|Split(FoldCrlf(pre))| - 1];
    }
  }

  /** A line that says that a newline is missing can be put anywhere between the lines of a patch. */
  lemma {:induction false} NoNewlineChangesNothing(base: string, pre: string, post: string, fuzz: int)
    requires WholeLines(pre)
    ensures ApplyPatch(base, pre + ("\\ No newline at end of file\n" + post), fuzz) == ApplyPatch(base, pre + post, fuzz)
  {
    hide ParseHunks, FoldCrlf, Split, ApplyFrom;
    assert "\\ No newline at end of file\n" == NO_NEWLINE + "\n";
    var a := LineAmong(pre, NO_NEWLINE, post);
    NoNewlineIsSkipped(a, Split(FoldCrlf(post)));
  }

  function HeaderFront(oldStart: nat, oldCount: Option<nat>, newStart: nat, newCount: Option<nat>): string {
    "@@ -" + (RangeText(oldStart, oldCount) + (" +" + (RangeText(newStart, newCount) + " @@")))
  }

  lemma {:induction false} RangeIsLfFree(start: nat, count: Option<nat>)
    ensures LfFree(RangeText(start, count))
  {
    hide Decimal;
    DigitsAreLfFree(Decimal(start));
    if count.Some? {
      DigitsAreLfFree(Decimal(count.value));
    }
  }

  lemma {:induction false} WrittenHeaderLine(oldStart: nat, oldCount: Option<nat>, newStart: nat, newCount: Option<nat>, tail: string)
    requires LfFree(tail)
    ensures var line := HeaderText(oldStart, oldCount, newStart, newCount, tail);
            && LfFree(line) && HasPrefix(line, "@@ ")
            && StripCr(line) == HeaderText(oldStart, oldCount, newStart, newCount, StripCr(tail))
  {
    hide RangeText;
    RangeIsLfFree(oldStart, oldCount);
    RangeIsLfFree(newStart, newCount);
    var front := HeaderFront(oldStart, oldCount, newStart, newCount);
    FrontAndTail(oldStart, oldCount, newStart, newCount, tail);
    FrontAndTail(oldStart, oldCount, newStart, newCount, StripCr(tail));
    assert LfFree(front) && front[..3] == "@@ " && front[|front| - 1] == '@';
    hide HeaderText, HeaderFront;
    StripCrOfTail(front, tail);
    assert (front + tail)[..3] == front[..3];
  }

  lemma {:induction false} FrontAndTail(oldStart: nat, oldCount: Option<nat>, newStart: nat, newCount: Option<nat>, tail: string)
    ensures HeaderText(oldStart, oldCount, newStart, newCount, tail) == HeaderFront(oldStart, oldCount, newStart, newCount) + tail
  {
    hide RangeText;
    var a, b := RangeText(oldStart, oldCount), RangeText(newStart, newCount);
    Regroup3(b, " @@", tail);
    Regroup3(" +", b + " @@", tail);
    Regroup3(a, " +" + (b + " @@"), tail);
    Regroup3("@@ -", a + (" +" + (b + " @@")), tail);
  }

  lemma {:induction false} StripCrOfTail(front: string, tail: string)
    requires front != "" && !EndsInCr(front)
    ensures StripCr(front + tail) == front + StripCr(tail)
  {
    if tail == "" {
      assert front + tail == front && StripCr(tail) == "";
    }
  }

  /** Leaving a count of one out of a header, either one or both, changes nothing; nor does any text after the header. */
  lemma {:induction false} LeftOutCountChangesNothing(base: string, pre: string, oldStart: nat, oldCount: Option<nat>, newStart: nat,
                                         newCount: Option<nat>, newCount': Option<nat>, tail: string, tail': string, post: string, fuzz: int)
    requires WholeLines(pre) && LfFree(tail) && LfFree(tail') && oldStart <= MAX_INT
    requires oldCount == None || oldCount == Some(1)
    ensures ApplyPatch(base, pre + (HeaderText(oldStart, oldCount, newStart, newCount, tail) + "\n" + post), fuzz)
         == ApplyPatch(base, pre + (HeaderText(oldStart, Some(1), newStart, newCount', tail') + "\n" + post), fuzz)
  {
    hide ParseHunks, ParseHeader, FoldCrlf, Split, ApplyFrom, HeaderText;
    var h, h' := HeaderText(oldStart, oldCount, newStart, newCount, tail), HeaderText(oldStart, Some(1), newStart, newCount', tail');
    WrittenHeaderLine(oldStart, oldCount, newStart, newCount, tail);
    WrittenHeaderLine(oldStart, Some(1), newStart, newCount', tail');
    StripCrLfFree(tail);
    StripCrLfFree(tail');
    WrittenHeaderLine(oldStart, oldCount, newStart, newCount, StripCr(tail));
    WrittenHeaderLine(oldStart, Some(1), newStart, newCount', StripCr(tail'));
    ParseWrittenHeader(oldStart, oldCount, newStart, newCount, StripCr(tail));
    ParseWrittenHeader(oldStart, Some(1), newStart, newCount', StripCr(tail'));
    var a := LineAmong(pre, h, post);
    var a' := LineAmong(pre, h', post);
    OtherHeader(a, StripCr(h), StripCr(h'), Split(FoldCrlf(post)));
  }

  // ----- What a patch is -----

  /** `\d+`, and a comma with digits after it or nothing. */
  ghost predicate IsRange(text: string, start: string, count: Option<string>) {
    && start != "" && AllDigits(start) && (count.Some? ==> count.value != "" && AllDigits(count.value))
    && text == if count.None? then start else start + "," + count.value
  }

  /** `@@ -range +range @@`, and anything after it; the numbers are those of the first range, a missing count one. */
  ghost predicate IsHeader(line: string, header: Header) {
    exists first, a, b, second, c, d, tail :: HeaderParts(line, header, first, a, b, second, c, d, tail)
  }

  ghost predicate HeaderParts(line: string, header: Header, first: string, a: string, b: Option<string>,
                              second: string, c: string, d: Option<string>, tail: string) {
    && IsRange(first, a, b) && IsRange(second, c, d)
    && line == "@@ -" + (first + (" +" + (second + (" @@" + tail))))
    && header == Header(Atoi(a), if b.None? then 1 else Atoi(b.value))
  }

  lemma {:induction false} RangeIsRead(text: string, start: string, count: Option<string>, rest: string)
    requires IsRange(text, start, count) && rest != "" && rest[0] == ' '
    ensures ParseRange(text + rest) == Some(Range(start, if count.None? then "" else count.value, rest))
  {
    if count.None? {
      ParseShortRange(start, rest);
    } else {
      ParseSplitRange(start, count.value, rest);
    }
  }

  lemma {:induction false} ReadRangeIsRange(s: string) returns (text: string, count: Option<string>)
    requires ParseRange(s).Some?
    ensures var range := ParseRange(s).value;
            && IsRange(text, range.start, count) && s == text + range.rest
            && range.count == (if count.None? then "" else count.value)
  {
    var range := ParseRange(s).value;
    var n := DigitRun(s);
    var rest := s[n..];
    assert s == s[..n] + rest;
    if rest != "" && rest[0] == ',' {
      var m := DigitRun(rest[1..]);
      assert rest == "," + (rest[1..][..m] + rest[1..][m..]);
      text, count := range.start + "," + range.count, Some(range.count);
      Regroup4(range.start, ",", range.count, range.rest);
      Regroup3(range.start + ",", range.count, range.rest);
    } else {
      text, count := range.start, None;
    }
  }

  lemma {:induction false} PartsAreRead(line: string, header: Header, first: string, a: string, b: Option<string>,
                            second: string, c: string, d: Option<string>, tail: string)
    requires HeaderParts(line, header, first, a, b, second, c, d, tail)
    ensures ParseHeader(line) == Some(header)
  {
    hide ParseRange, Atoi, AllDigits;
    var end := " @@" + tail;
    assert line[4..] == first + (" +" + (second + end));
    RangeIsRead(first, a, b, " +" + (second + end));
    assert (" +" + (second + end))[2..] == second + end;
    RangeIsRead(second, c, d, end);
  }

  lemma {:induction false} ReadHeaderHasParts(line: string)
    requires ParseHeader(line).Some?
    ensures IsHeader(line, ParseHeader(line).value)
  {
    hide ParseRange, Atoi, AllDigits;
    var first := ParseRange(line[4..]).value;
    var second := ParseRange(first.rest[2..]).value;
    var firstText, b := ReadRangeIsRange(line[4..]);
    var secondText, d := ReadRangeIsRange(first.rest[2..]);
    var tail := second.rest[3..];
    assert line == "@@ -" + line[4..] && first.rest == " +" + first.rest[2..] && second.rest == " @@" + tail;
    assert HeaderParts(line, ParseHeader(line).value, firstText, first.start, b, secondText, second.start, d, tail);
  }

  /** A line is read as a header exactly when it is one. */
  lemma {:induction false} HeaderIsRead(line: string, header: Header)
    ensures ParseHeader(line) == Some(header) <==> IsHeader(line, header)
  {
    hide ParseHeader, HeaderParts;
    if ParseHeader(line) == Some(header) {
      ReadHeaderHasParts(line);
    }
    if IsHeader(line, header) {
      var first, a, b, second, c, d, tail :| HeaderParts(line, header, first, a, b, second, c, d, tail);
      PartsAreRead(line, header, first, a, b, second, c, d, tail);
    }
  }

  predicate IsBodyLine(line: string) {
    || line == "\\ No newline at end of file"
    || (line != "" && (line[0] == ' ' || line[0] == '-' || line[0] == '+') && !HasPrefix(line, "--- ") && !HasPrefix(line, "+++ "))
  }

  /** The lines of a hunk that stand in its old side, or in its new one, without their marks. */
  function Side(body: seq<string>, mark: char): seq<string> {
    if |body| == 0 then []
    else (if body[0] != "" && (body[0][0] == ' ' || body[0][0] == mark) then [body[0][1..]] else []) + Side(body[1..], mark)
  }

  ghost predicate IsBody(body: seq<string>) {
    forall i :: 0 <= i < |body| ==> IsBodyLine(body[i])
  }

  ghost predicate BodyReads(lines: seq<string>, body: seq<string>, rest: seq<string>) {
    IsBody(body) && EndsHunk(rest) && lines == body + rest
  }

  lemma {:induction false} BodyIsRead(body: seq<string>, rest: seq<string>)
    requires IsBody(body) && EndsHunk(rest)
    ensures ParseBody(body + rest) == Ok(HunkBody(Side(body, '-'), Side(body, '+'), rest))
    decreases |body|
  {
    if |body| == 0 {
      EmptyConcat(body, rest);
      assert ParseBody(rest) == Ok(HunkBody([], [], rest));
    } else {
      var lines := body + rest;
      TailOfConcat(body, rest);
      BodyIsRead(body[1..], rest);
      BodyLineGoesOn(body[0], lines);
      assert NO_NEWLINE[0] == '\\';
      EmptyConcat([], Side(body[1..], '-'));
      EmptyConcat([], Side(body[1..], '+'));
    }
  }

  lemma {:induction false} BodyLineGoesOn(line: string, lines: seq<string>)
    requires |lines| > 0 && lines[0] == line && IsBodyLine(line)
    ensures !EndsHunk(lines) && line != ""
  {
    NoNewlineIsNoMark();
    assert "@@ "[0] == '@';
  }

  lemma {:induction false} ReadBodyIsBody(lines: seq<string>) returns (body: seq<string>)
    requires ParseBody(lines).Ok?
    ensures BodyReads(lines, body, ParseBody(lines).value.rest)
  {
    if EndsHunk(lines) {
      body := [];
      EmptyConcat(body, lines);
    } else {
      var more := ReadBodyIsBody(lines[1..]);
      body := [lines[0]] + more;
      assert lines == [lines[0]] + lines[1..];
      Regroup3([lines[0]], more, ParseBody(lines).value.rest);
    }
  }

  /** The hunks of a patch, one after the other, with lines between them that are no headers. */
  ghost predicate IsPatch(lines: seq<string>, hunks: seq<PatchHunk>)
    decreases |hunks|
  {
    if |hunks| == 0 then forall i :: 0 <= i < |lines| ==> ParseHeader(lines[i]).None?
    else exists n: nat, body: seq<string>, rest: seq<string> :: FirstHunk(lines, hunks[0], n, body, rest) && IsPatch(rest, hunks[1..])
  }

  /** The first header is line n; the lines after it, up to the rest, are the hunk's, as many old ones as it declares. */
  ghost predicate FirstHunk(lines: seq<string>, hunk: PatchHunk, n: nat, body: seq<string>, rest: seq<string>) {
    && n < |lines| && (forall i :: 0 <= i < n ==> ParseHeader(lines[i]).None?)
    && ParseHeader(lines[n]) == Some(Header(hunk.oldStart, |hunk.oldLines|))
    && BodyReads(lines[n + 1..], body, rest)
    && hunk.oldLines == Side(body, '-') && hunk.newLines == Side(body, '+')
  }

  /** What is read as hunks are exactly the hunks of the patch. */
  lemma {:induction false} PatchIsRead(lines: seq<string>, hunks: seq<PatchHunk>)
    ensures ParseHunks(lines) == Ok(hunks) <==> IsPatch(lines, hunks)
    decreases |lines|
  {
    hide ParseHeader, ParseBody, EndsHunk;
    if |lines| == 0 {
    } else if ParseHeader(lines[0]).None? {
      PatchIsRead(lines[1..], hunks);
      LaterHeader(lines, hunks);
    } else {
      PatchStartsHere(lines, hunks);
    }
  }

  lemma {:induction false} LaterHeader(lines: seq<string>, hunks: seq<PatchHunk>)
    requires |lines| > 0 && ParseHeader(lines[0]).None?
    ensures IsPatch(lines, hunks) <==> IsPatch(lines[1..], hunks)
  {
    hide ParseHeader, BodyReads;
    var tail := lines[1..];
    if |hunks| == 0 {
      assert forall i :: 1 <= i < |lines| ==> lines[i] == tail[i - 1];
    } else {
      if IsPatch(lines, hunks) {
        var n: nat, body: seq<string>, rest: seq<string> :| FirstHunk(lines, hunks[0], n, body, rest) && IsPatch(rest, hunks[1..]);
        assert forall i :: 0 <= i < n - 1 ==> tail[i] == lines[i + 1];
        assert tail[n - 1 + 1..] == lines[n + 1..];
        assert FirstHunk(tail, hunks[0], n - 1, body, rest);
      }
      if IsPatch(tail, hunks) {
        var n: nat, body: seq<string>, rest: seq<string> :| FirstHunk(tail, hunks[0], n, body, rest) && IsPatch(rest, hunks[1..]);
        assert forall i :: 1 <= i < n + 1 ==> lines[i] == tail[i - 1];
        assert lines[n + 2..] == tail[n + 1..];
        assert FirstHunk(lines, hunks[0], n + 1, body, rest);
      }
    }
  }

  lemma {:induction false} FirstHunkIsRead(lines: seq<string>, hunk: PatchHunk, n: nat, body: seq<string>, rest: seq<string>)
    requires |lines| > 0 && ParseHeader(lines[0]).Some? && FirstHunk(lines, hunk, n, body, rest)
    ensures n == 0 && |rest| < |lines|
    ensures ParseBody(lines[1..]) == Ok(HunkBody(hunk.oldLines, hunk.newLines, rest))
    ensures ParseHeader(lines[0]).value == Header(hunk.oldStart, |hunk.oldLines|)
  {
    hide ParseHeader, EndsHunk, ParseBody;
    BodyIsRead(body, rest);
  }

  lemma {:induction false} ReadHunkIsFirst(lines: seq<string>, hunk: PatchHunk, rest: seq<string>) returns (body: seq<string>)
    requires |lines| > 0 && ParseHeader(lines[0]) == Some(Header(hunk.oldStart, |hunk.oldLines|))
    requires ParseBody(lines[1..]) == Ok(HunkBody(hunk.oldLines, hunk.newLines, rest))
    ensures FirstHunk(lines, hunk, 0, body, rest)
  {
    hide ParseHeader, EndsHunk, ParseBody;
    body := ReadBodyIsBody(lines[1..]);
    BodyIsRead(body, rest);
  }

  lemma {:induction false} PatchStartsHere(lines: seq<string>, hunks: seq<PatchHunk>)
    requires |lines| > 0 && ParseHeader(lines[0]).Some?
    ensures ParseHunks(lines) == Ok(hunks) <==> IsPatch(lines, hunks)
    decreases |lines|, 1
  {
    hide ParseHeader, ParseBody, FirstHunk;
    if ParseHunks(lines) == Ok(hunks) {
      var read := ParseBody(lines[1..]).value;
      var body := ReadHunkIsFirst(lines, hunks[0], read.rest);
      PatchIsRead(read.rest, hunks[1..]);
    }
    if IsPatch(lines, hunks) {
      ReadFromPatch(lines, hunks);
    }
  }

  lemma {:induction false} ReadFromPatch(lines: seq<string>, hunks: seq<PatchHunk>)
    requires |lines| > 0 && ParseHeader(lines[0]).Some? && IsPatch(lines, hunks)
    ensures ParseHunks(lines) == Ok(hunks)
    decreases |lines|, 0
  {
    hide ParseHeader, ParseBody, FirstHunk;
    var n: nat, body: seq<string>, rest: seq<string> :| FirstHunk(lines, hunks[0], n, body, rest) && IsPatch(rest, hunks[1..]);
    FirstHunkIsRead(lines, hunks[0], n, body, rest);
    PatchIsRead(rest, hunks[1..]);
    hide IsPatch;
    assert hunks == [hunks[0]] + hunks[1..];
  }

  // ----- Where a hunk goes -----

  lemma {:induction false} NearestIsOne(lines: seq<string>, expectedLines: seq<string>, expected: int, fuzz: nat, p: int, q: int)
    requires IsNearest(lines, expectedLines, expected, fuzz, p) && IsNearest(lines, expectedLines, expected, fuzz, q)
    ensures p == q
  {
    hide Matches;
    var a, b := Distance(p, expected), Distance(q, expected);
  }

  /**
   A hunk replaces its old lines at the match nearest to where it is expected, and the next ones are expected as much
   later as the text has grown; if no match is within the fuzz, nothing is applied.
   */
  lemma {:induction false} HunkGoesToNearest(lines: seq<string>, hunk: PatchHunk, hunks: seq<PatchHunk>, fuzz: nat, index: nat, delta: int, p: int)
    requires var expected := hunk.oldStart - 1 + delta;
             && |lines| + |hunk.oldLines| <= MAX_INT && MIN_INT <= expected - fuzz && expected + fuzz + |hunk.oldLines| <= MAX_INT
             && IsNearest(lines, hunk.oldLines, expected, fuzz, p)
    ensures ApplyFrom(lines, [hunk] + hunks, fuzz, index, delta)
         == if p == -1 then Err(HunkDoesNotMatch(index))
            else
              assert 0 <= p <= p + |hunk.oldLines| <= |lines|;
              ApplyFrom(lines[..p] + hunk.newLines + lines[p + |hunk.oldLines|..], hunks, fuzz, index + 1,
                        delta + |hunk.newLines| - |hunk.oldLines|)
  {
    var expected := hunk.oldStart - 1 + delta;
    SearchIsNearest(lines, hunk.oldLines, expected, fuzz);
    var search := SearchInts(lines, hunk.oldLines, expected, fuzz);
    hide SearchInts;
    assert ([hunk] + hunks)[1..] == hunks;
    NearestIsOne(lines, hunk.oldLines, expected, fuzz, p, if search.Found? then search.position else -1);
  }
}
