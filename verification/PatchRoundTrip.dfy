/**
 Diff, then patch: what applyUnifiedPatch makes of the text that unifiedDiff printed.

 The law promised is that patching `before` with the diff of `before` and `after` gives `after`.  It fails on
 some inputs, because the printer and the reader disagree in four places: a line that prints like a file header, a
 carriage return at the end of a line, the place of a hunk without old lines, and a line feed at the end of only one
 of the texts.  Faithful says of a hunk that none of the first three befalls it; PatchLaw proves the law holds exactly
 where all hunks are faithful and the texts end alike.
 */
module PatchRoundTrip {
  import opened Text
  import opened LineDiff
  import opened UnifiedDiff
  import opened Patch

  // ----- What stands in the way -----

  /** The reader takes the printed form of this operation for a file header, and stops. */
  predicate LooksLikeFileHeader(op: DiffLine) {
    || (op.kind == Delete && HasPrefix(op.text, "-- "))
    || (op.kind == Insert && HasPrefix(op.text, "++ "))
  }

  function Part(ops: seq<DiffLine>, hunk: Interval): seq<DiffLine>
    requires InRange(ops, hunk)
  {
    ops[hunk.start..hunk.end]
  }

  predicate Readable(part: seq<DiffLine>) {
    forall i :: 0 <= i < |part| ==> !LooksLikeFileHeader(part[i])
  }

  predicate CrFree(part: seq<DiffLine>) {
    forall i :: 0 <= i < |part| ==> !EndsInCr(part[i].text)
  }

  /**
   A hunk without old lines is printed with the line before it as its start, and the applier inserts it above
   that line: harmless only when there is such a line and every inserted line equals it.
   */
  predicate PlacedRight(ops: seq<DiffLine>, hunk: Interval)
    requires InRange(ops, hunk)
  {
    |OldLines(Part(ops, hunk))| == 0 ==>
      hunk.start > 0 && forall i :: hunk.start <= i < hunk.end ==> ops[i].text == ops[hunk.start - 1].text
  }

  predicate Faithful(ops: seq<DiffLine>, hunk: Interval)
    requires InRange(ops, hunk)
  {
    Readable(Part(ops, hunk)) && CrFree(Part(ops, hunk)) && PlacedRight(ops, hunk)
  }

  // ----- Reading back one hunk -----

  /** The operations the reader gets to see. */
  function ReadPart(part: seq<DiffLine>): (read: seq<DiffLine>)
    ensures |read| <= |part| && read == part[..|read|]
  {
    if |part| == 0 || LooksLikeFileHeader(part[0]) then [] else [part[0]] + ReadPart(part[1..])
  }

  function Printed(ops: seq<DiffLine>): seq<string> {
    StripCrs(OpLines(ops))
  }

  lemma {:induction false} PrintedHead(ops: seq<DiffLine>, tail: seq<string>)
    requires |ops| > 0
    ensures (Printed(ops) + tail)[0] == [Mark(ops[0].kind)] + StripCr(ops[0].text)
    ensures (Printed(ops) + tail)[1..] == Printed(ops[1..]) + tail
  {
    assert OpLines(ops)[0] == OpLine(ops[0]) && OpLines(ops)[1..] == OpLines(ops[1..]);
    assert Printed(ops) == [StripCr(OpLine(ops[0]))] + Printed(ops[1..]);
    assert StripCr(OpLine(ops[0])) == [Mark(ops[0].kind)] + StripCr(ops[0].text);
  }

  lemma {:induction false} PrintedHeadKind(op: DiffLine)
    ensures var line := [Mark(op.kind)] + StripCr(op.text);
            && !HasPrefix(line, "@@ ") && line != "" && line != NO_NEWLINE && ParseHeader(line).None?
            && ((HasPrefix(line, "--- ") || HasPrefix(line, "+++ ")) <==> LooksLikeFileHeader(op))
  {
    var line := [Mark(op.kind)] + StripCr(op.text);
    assert line[0] == Mark(op.kind);
    assert NO_NEWLINE[0] == '\\';
    assert "@@ "[0] == '@' && "@@ -"[0] == '@';
    forall prefix | prefix == "-- " || prefix == "++ "
      ensures HasPrefix(StripCr(op.text), prefix) <==> HasPrefix(op.text, prefix)
    {
      assert prefix[2] == ' ';
      if HasPrefix(op.text, prefix) { assert op.text[2] == ' '; }
    }
    assert line[1..] == StripCr(op.text);
    assert "--- " == "-" + "-- " && "+++ " == "+" + "++ ";
    assert HasPrefix(line, "--- ") <==> line[0] == '-' && HasPrefix(line[1..], "-- ");
    assert HasPrefix(line, "+++ ") <==> line[0] == '+' && HasPrefix(line[1..], "++ ");
  }

  lemma {:induction false} ReadPartStep(part: seq<DiffLine>)
    requires |part| > 0 && !LooksLikeFileHeader(part[0])
    ensures var read, rest := ReadPart(part), ReadPart(part[1..]);
            && part[|read|..] == part[1..][|rest|..]
            && StripCrs(OldLines(read)) == (if part[0].kind == Insert then [] else [StripCr(part[0].text)]) + StripCrs(OldLines(rest))
            && StripCrs(NewLines(read)) == (if part[0].kind == Delete then [] else [StripCr(part[0].text)]) + StripCrs(NewLines(rest))
  {
    var read, rest := ReadPart(part), ReadPart(part[1..]);
    assert read[0] == part[0] && read[1..] == rest;
    StripCrsAdd(OldPart(part[0]), OldLines(rest));
    StripCrsAdd(NewPart(part[0]), NewLines(rest));
  }

  lemma {:induction false} ParseBodyStep(op: DiffLine, lines: seq<string>, oldLines: seq<string>, newLines: seq<string>, rest: seq<string>)
    requires |lines| > 0 && lines[0] == [Mark(op.kind)] + StripCr(op.text) && !LooksLikeFileHeader(op)
    requires ParseBody(lines[1..]) == Ok(HunkBody(oldLines, newLines, rest))
    ensures ParseBody(lines) == Ok(HunkBody((if op.kind == Insert then [] else [StripCr(op.text)]) + oldLines,
                                            (if op.kind == Delete then [] else [StripCr(op.text)]) + newLines, rest))
  {
    PrintedHeadKind(op);
    assert lines[0][1..] == StripCr(op.text);
    assert [] + oldLines == oldLines && [] + newLines == newLines;
  }

  lemma {:induction false} ParsePrintedBody(part: seq<DiffLine>, tail: seq<string>)
    requires EndsHunk(tail)
    ensures var read := ReadPart(part);
            ParseBody(Printed(part) + tail)
              == Ok(HunkBody(StripCrs(OldLines(read)), StripCrs(NewLines(read)), Printed(part[|read|..]) + tail))
  {
    if |part| == 0 {
      assert Printed(part) + tail == tail;
      assert part[0..] == part;
    } else {
      PrintedHead(part, tail);
      if LooksLikeFileHeader(part[0]) {
        PrintedHeadKind(part[0]);
        assert part[0..] == part;
      } else {
        var rest := ReadPart(part[1..]);
        ParsePrintedBody(part[1..], tail);
        ReadPartStep(part);
        ParseBodyStep(part[0], Printed(part) + tail, StripCrs(OldLines(rest)), StripCrs(NewLines(rest)),
                      Printed(part[1..][|rest|..]) + tail);
      }
    }
  }

  lemma {:induction false} SkipPrinted(part: seq<DiffLine>, tail: seq<string>)
    ensures ParseHunks(Printed(part) + tail) == ParseHunks(tail)
  {
    if |part| == 0 {
      assert Printed(part) + tail == tail;
    } else {
      PrintedHead(part, tail);
      PrintedHeadKind(part[0]);
      SkipPrinted(part[1..], tail);
    }
  }

  // ----- Reading back all hunks -----

  predicate CountsAgree(part: seq<DiffLine>) {
    |OldLines(ReadPart(part))| == |OldLines(part)|
  }

  /** The hunk that the reader makes of a printed one. */
  function HunkOf(ops: seq<DiffLine>, hunk: Interval): PatchHunk
    requires InRange(ops, hunk)
  {
    var read := ReadPart(Part(ops, hunk));
    PatchHunk(StartLine(|OldLines(ops[..hunk.start])|, |OldLines(Part(ops, hunk))|),
              StripCrs(OldLines(read)), StripCrs(NewLines(read)))
  }

  predicate AllInRange(ops: seq<DiffLine>, hunks: seq<Interval>) {
    forall k :: 0 <= k < |hunks| ==> InRange(ops, hunks[k])
  }

  function HunksOf(ops: seq<DiffLine>, hunks: seq<Interval>): (result: seq<PatchHunk>)
    requires AllInRange(ops, hunks)
    ensures |result| == |hunks|
  {
    if |hunks| == 0 then [] else [HunkOf(ops, hunks[0])] + HunksOf(ops, hunks[1..])
  }

  predicate AllCountsAgree(ops: seq<DiffLine>, hunks: seq<Interval>)
    requires AllInRange(ops, hunks)
  {
    forall k :: 0 <= k < |hunks| ==> CountsAgree(Part(ops, hunks[k]))
  }

  lemma {:induction false} SplitProjections(ops: seq<DiffLine>, i: nat)
    requires i <= |ops|
    ensures OldLines(ops) == OldLines(ops[..i]) + OldLines(ops[i..])
    ensures NewLines(ops) == NewLines(ops[..i]) + NewLines(ops[i..])
  {
    assert ops == ops[..i] + ops[i..];
    OldLinesConcat(ops[..i], ops[i..]);
    NewLinesConcat(ops[..i], ops[i..]);
  }

  lemma {:induction false} PrintedHeaderReads(ops: seq<DiffLine>, hunk: Interval)
    requires InRange(ops, hunk) && |OldLines(ops)| <= MAX_INT
    ensures ParseHeader(HeaderOf(ops, hunk))
         == Some(Header(StartLine(|OldLines(ops[..hunk.start])|, |OldLines(Part(ops, hunk))|), |OldLines(Part(ops, hunk))|))
    ensures StripCr(HeaderOf(ops, hunk)) == HeaderOf(ops, hunk)
    ensures HasPrefix(HeaderOf(ops, hunk), "@@ ")
  {
    SplitProjections(ops, hunk.start);
    SplitProjections(ops[hunk.start..], hunk.end - hunk.start);
    assert ops[hunk.start..][..hunk.end - hunk.start] == Part(ops, hunk);
    var oldCount, newCount := |OldLines(Part(ops, hunk))|, |NewLines(Part(ops, hunk))|;
    var oldStart := StartLine(|OldLines(ops[..hunk.start])|, oldCount);
    var newStart := StartLine(|NewLines(ops[..hunk.start])|, newCount);
    ParsePrintedHeader(oldStart, oldCount, newStart, newCount);
    HeaderShape(oldStart, oldCount, newStart, newCount);
  }

  lemma {:induction false} HeaderShape(oldStart: nat, oldCount: nat, newStart: nat, newCount: nat)
    ensures var header := HunkHeader(oldStart, oldCount, newStart, newCount);
            StripCr(header) == header && HasPrefix(header, "@@ ") && LfFree(header)
  {
    var header := HunkHeader(oldStart, oldCount, newStart, newCount);
    assert header[|header| - 1] == '@';
    DigitsAreLfFree(Decimal(oldStart));
    DigitsAreLfFree(Decimal(oldCount));
    DigitsAreLfFree(Decimal(newStart));
    DigitsAreLfFree(Decimal(newCount));
  }

  lemma {:induction false} ParseHunksStep(header: string, lines: seq<string>, found: Header, body: HunkBody, rest: Result<seq<PatchHunk>, PatchError>)
    requires ParseHeader(header) == Some(found)
    requires ParseBody(lines) == Ok(body) && ParseHunks(body.rest) == rest
    ensures ParseHunks([header] + lines) ==
            if |body.oldLines| != found.oldCount then Err(OldCountMismatch(found.oldCount, |body.oldLines|))
            else if rest.Err? then rest
            else Ok([PatchHunk(found.oldStart, body.oldLines, body.newLines)] + rest.value)
  {
    assert ([header] + lines)[1..] == lines;
  }

  lemma {:induction false} ParsePrintedHunks(ops: seq<DiffLine>, hunks: seq<Interval>)
    requires AllInRange(ops, hunks) && |OldLines(ops)| <= MAX_INT
    ensures var parsed := ParseHunks(StripCrs(BodyLines(ops, hunks)) + [""]);
            if AllCountsAgree(ops, hunks) then parsed == Ok(HunksOf(ops, hunks)) else parsed.Err?
  {
    if |hunks| == 0 {
      assert StripCrs(BodyLines(ops, hunks)) + [""] == [""];
      assert ParseHeader("").None?;
    } else {
      var hunk, part := hunks[0], Part(ops, hunks[0]);
      var tail := StripCrs(BodyLines(ops, hunks[1..])) + [""];
      ParsePrintedHunks(ops, hunks[1..]);
      PrintedHeaderReads(ops, hunk);
      PrintedBodySplits(ops, hunks);
      TailEndsHunk(ops, hunks[1..]);
      ParsePrintedBody(part, tail);
      var read := ReadPart(part);
      SkipPrinted(part[|read|..], tail);
      var oldCount := |OldLines(part)|;
      ParseHunksStep(HeaderOf(ops, hunk), Printed(part) + tail,
                     Header(StartLine(|OldLines(ops[..hunk.start])|, oldCount), oldCount),
                     HunkBody(StripCrs(OldLines(read)), StripCrs(NewLines(read)), Printed(part[|read|..]) + tail),
                     ParseHunks(tail));
      AllCountsAgreeStep(ops, hunks);
    }
  }

  lemma {:induction false} AllCountsAgreeStep(ops: seq<DiffLine>, hunks: seq<Interval>)
    requires AllInRange(ops, hunks) && |hunks| > 0
    ensures AllCountsAgree(ops, hunks) <==> CountsAgree(Part(ops, hunks[0])) && AllCountsAgree(ops, hunks[1..])
  {
    assert forall k :: 1 <= k < |hunks| ==> hunks[k] == hunks[1..][k - 1];
    assert forall k :: 0 <= k < |hunks[1..]| ==> hunks[1..][k] == hunks[k + 1];
  }

  lemma {:induction false} Regroup(header: string, lines: seq<string>, body: seq<string>)
    ensures StripCrs([header] + lines + body) + [""] == [StripCr(header)] + (StripCrs(lines) + (StripCrs(body) + [""]))
  {
    StripCrsAdd([header] + lines, body);
    StripCrsAdd([header], lines);
    Regroup4([StripCr(header)], StripCrs(lines), StripCrs(body), [""]);
  }

  lemma {:induction false} PrintedBodySplits(ops: seq<DiffLine>, hunks: seq<Interval>)
    requires AllInRange(ops, hunks) && |hunks| > 0
    requires StripCr(HeaderOf(ops, hunks[0])) == HeaderOf(ops, hunks[0])
    ensures StripCrs(BodyLines(ops, hunks)) + [""]
         == [HeaderOf(ops, hunks[0])] + (Printed(Part(ops, hunks[0])) + (StripCrs(BodyLines(ops, hunks[1..])) + [""]))
  {
    Regroup(HeaderOf(ops, hunks[0]), OpLines(Part(ops, hunks[0])), BodyLines(ops, hunks[1..]));
  }

  lemma {:induction false} TailEndsHunk(ops: seq<DiffLine>, hunks: seq<Interval>)
    requires AllInRange(ops, hunks) && |OldLines(ops)| <= MAX_INT
    ensures EndsHunk(StripCrs(BodyLines(ops, hunks)) + [""])
  {
    if |hunks| > 0 {
      PrintedHeaderReads(ops, hunks[0]);
      PrintedBodySplits(ops, hunks);
    }
  }

  // ----- The file header -----

  lemma {:induction false} FoldAfterLf(s: string, rest: string)
    requires s != "" && s[|s| - 1] == '\n'
    ensures FoldCrlf(s + rest) == FoldCrlf(s) + FoldCrlf(rest)
    ensures FoldCrlf(s) != "" && FoldCrlf(s)[|FoldCrlf(s)| - 1] == '\n'
  {
    TailOfConcat(s, rest);
    if |s| == 1 {
      EmptyConcat(s[1..], rest);
    } else if s[0] == '\r' && s[1] == '\n' {
      TailOfConcat(s[1..], rest);
      assert s[1..][1..] == s[2..] && (s + rest)[1..][1..] == (s + rest)[2..];
      if |s| == 2 {
        EmptyConcat(s[2..], rest);
      } else {
        FoldAfterLf(s[2..], rest);
        Regroup3("\n", FoldCrlf(s[2..]), FoldCrlf(rest));
      }
    } else {
      FoldAfterLf(s[1..], rest);
      assert (s + rest)[1] == s[1];
      Regroup3([s[0]], FoldCrlf(s[1..]), FoldCrlf(rest));
    }
  }

  lemma {:induction false} SplitEndsEmpty(s: string)
    requires s != "" && s[|s| - 1] == '\n'
    ensures |Split(s)| >= 2
  {
    if |s| > 1 {
      SplitEndsEmpty(s[1..]);
    }
  }

  lemma {:induction false} SplitAfterLf(s: string, rest: string)
    requires s != "" && s[|s| - 1] == '\n'
    ensures Split(s + rest) == Split(s)[..|Split(s)| - 1] + Split(rest)
  {
    TailOfConcat(s, rest);
    if |s| == 1 {
      EmptyConcat(s[1..], rest);
    } else {
      SplitAfterLf(s[1..], rest);
      SplitEndsEmpty(s[1..]);
      SplitStep(s[0], Split(s[1..]), Split(rest));
    }
  }

  lemma {:induction false} SplitStep(c: char, tail: seq<string>, after: seq<string>)
    requires |tail| >= 2
    ensures var short := tail[..|tail| - 1];
            && [""] + (short + after) == ([""] + tail)[..|tail|] + after
            && [[c] + (short + after)[0]] + (short + after)[1..] == ([[c] + tail[0]] + tail[1..])[..|tail| - 1] + after
  {
  }

  /** The lines that the two file names of a diff occupy. */
  function NameLines(from: string, to: string): seq<string> {
    var lines := Split(FoldCrlf(FileHeader(from, to)));
    lines[..|lines| - 1]
  }

  /** No line of a file name reads as a hunk header; true of every name without a line feed (OneLineNames). */
  predicate HeaderSafe(from: string, to: string) {
    NoHeaderIn(NameLines(from, to))
  }

  predicate NoHeaderIn(lines: seq<string>) {
    forall i :: 0 <= i < |lines| ==> ParseHeader(lines[i]).None?
  }

  lemma {:induction false} OneLineNames(from: string, to: string)
    requires LfFree(from) && LfFree(to)
    ensures HeaderSafe(from, to)
  {
    hide ParseHeader, FoldCrlf, Split, NoHeaderIn;
    AfterPrefix("--- ", from);
    AfterPrefix("+++ ", to);
    SafeLines("--- " + from, "+++ " + to);
  }

  lemma {:induction false} AfterPrefix(prefix: string, line: string)
    requires |prefix| > 1 && LfFree(prefix) && LfFree(line)
    ensures LfFree(prefix + line) && |prefix + line| > 1 && (prefix + line)[0] == prefix[0]
  {
  }

  lemma {:induction false} SafeLines(first: string, second: string)
    requires LfFree(first) && LfFree(second) && |first| > 1 && |second| > 1
    requires first[0] != '@' && second[0] != '@'
    ensures var lines := Split(FoldCrlf(first + "\n" + second + "\n"));
            NoHeaderIn(lines[..|lines| - 1])
  {
    SplitTwoLines(first, second);
    NotAHeader(StripCr(first));
    NotAHeader(StripCr(second));
  }

  lemma {:induction false} NotAHeader(line: string)
    requires line != "" && line[0] != '@'
    ensures ParseHeader(line).None?
  {
    assert "@@ -"[0] == '@';
  }

  lemma {:induction false} SplitTwoLines(first: string, second: string)
    requires LfFree(first) && LfFree(second)
    ensures Split(FoldCrlf(first + "\n" + second + "\n")) == [StripCr(first), StripCr(second), ""]
  {
    Regroup4(first, "\n", second, "\n");
    assert second + "\n" + "" == second + "\n";
    Regroup3(first, "\n", second + "\n");
    FoldPrepend(first, second + "\n");
    FoldPrepend(second, "");
    StripCrLfFree(first);
    StripCrLfFree(second);
    SplitPrepend(StripCr(first), StripCr(second) + "\n" + "");
    SplitPrepend(StripCr(second), "");
  }

  lemma {:induction false} StripCrLfFree(line: string)
    requires LfFree(line)
    ensures LfFree(StripCr(line))
  {
  }

  lemma {:induction false} SkipNames(names: seq<string>, rest: seq<string>)
    requires NoHeaderIn(names)
    ensures ParseHunks(names + rest) == ParseHunks(rest)
  {
    if |names| == 0 {
      assert names + rest == rest;
    } else {
      assert (names + rest)[1..] == names[1..] + rest;
      SkipNames(names[1..], rest);
    }
  }

  lemma {:induction false} BodyIsLfFree(ops: seq<DiffLine>, hunks: seq<Interval>)
    requires AllInRange(ops, hunks) && forall i :: 0 <= i < |ops| ==> LfFree(ops[i].text)
    ensures AllLfFree(BodyLines(ops, hunks))
  {
    if |hunks| > 0 {
      BodyIsLfFree(ops, hunks[1..]);
      var hunk := hunks[0];
      var oldCount, newCount := |OldLines(Part(ops, hunk))|, |NewLines(Part(ops, hunk))|;
      HeaderShape(StartLine(|OldLines(ops[..hunk.start])|, oldCount), oldCount,
                  StartLine(|NewLines(ops[..hunk.start])|, newCount), newCount);
      forall i | 0 <= i < |Part(ops, hunk)| ensures LfFree(OpLines(Part(ops, hunk))[i]) {
        assert LfFree(ops[hunk.start + i].text);
      }
    }
  }

  /** Reading a printed patch yields the hunks that HunkOf describes, or an error when a count disagrees. */
  lemma {:induction false} ParsePrintedPatch(from: string, to: string, ops: seq<DiffLine>, hunks: seq<Interval>)
    requires HeaderSafe(from, to) && AllInRange(ops, hunks) && |hunks| > 0 && |OldLines(ops)| <= MAX_INT
    requires forall i :: 0 <= i < |ops| ==> LfFree(ops[i].text)
    ensures var parsed := ParsePatch(FileHeader(from, to) + Unlines(BodyLines(ops, hunks)));
            if AllCountsAgree(ops, hunks) then parsed == Ok(HunksOf(ops, hunks)) else parsed.Err?
  {
    var header, body := FileHeader(from, to), BodyLines(ops, hunks);
    BodyIsLfFree(ops, hunks);
    FoldAfterLf(header, Unlines(body));
    FoldUnlines(body);
    SplitAfterLf(FoldCrlf(header), Unlines(StripCrs(body)));
    assert AllLfFree(StripCrs(body)) by {
      StripCrsElements(body);
      forall i | 0 <= i < |body| ensures LfFree(StripCrs(body)[i]) { StripCrLfFree(body[i]); }
    }
    SplitUnlines(StripCrs(body), "");
    assert Unlines(StripCrs(body)) + "" == Unlines(StripCrs(body));
    SkipNames(NameLines(from, to), StripCrs(body) + [""]);
    ParsePrintedHunks(ops, hunks);
  }
}
