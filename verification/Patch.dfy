/** The unified-diff reader and applier of internal/filetool/diff.go: specifications, and the loops that compute them. */
module Patch {
  import opened Text
  import UnifiedDiff

  datatype PatchError =
    | NegativeFuzz
    | UnprefixedEmptyLine
    | InvalidPrefix(c: char)
    | OldCountMismatch(declared: nat, actual: nat)
    | NoHunks
    | HunkDoesNotMatch(index: nat)
    | IndexOutOfRange(index: nat)

  datatype PatchHunk = PatchHunk(oldStart: nat, oldLines: seq<string>, newLines: seq<string>)

  // ----- Hunk headers -----

  datatype Range = Range(start: string, count: string, rest: string)

  datatype Header = Header(oldStart: nat, oldCount: nat)

  function DigitRun(s: string): (n: nat)
    ensures n <= |s| && AllDigits(s[..n])
  {
    if |s| > 0 && IsDigit(s[0]) then 1 + DigitRun(s[1..]) else 0
  }

  /** `(\d+)(?:,(\d+))?`, with an absent count read as the empty string. */
  function ParseRange(s: string): (range: Option<Range>)
    ensures range.Some? ==> AllDigits(range.value.start) && AllDigits(range.value.count)
  {
    var n := DigitRun(s);
    var rest := s[n..];
    if n == 0 then None
    else if |rest| > 0 && rest[0] == ',' then
      var m := DigitRun(rest[1..]);
      if m == 0 then None else Some(Range(s[..n], rest[1..][..m], rest[1..][m..]))
    else Some(Range(s[..n], "", rest))
  }

  /** The pattern hunkHeader and the two numbers taken from its match. */
  function ParseHeader(line: string): Option<Header> {
    if !HasPrefix(line, "@@ -") then None
    else
      var first := ParseRange(line[4..]);
      if first.None? || !HasPrefix(first.value.rest, " +") then None
      else
        var second := ParseRange(first.value.rest[2..]);
        if second.None? || !HasPrefix(second.value.rest, " @@") then None
        else Some(Header(Atoi(first.value.start), if first.value.count == "" then 1 else Atoi(first.value.count)))
  }

  lemma {:induction false} DigitRunStops(digits: string, rest: string)
    requires AllDigits(digits) && (rest == "" || !IsDigit(rest[0]))
    ensures DigitRun(digits + rest) == |digits|
  {
    if digits == "" {
      assert digits + rest == rest;
    } else {
      DigitRunStops(digits[1..], rest);
      assert (digits + rest)[1..] == digits[1..] + rest;
    }
  }

  lemma {:induction false} ParseSplitRange(start: string, count: string, rest: string)
    requires AllDigits(start) && AllDigits(count) && start != "" && count != ""
    requires rest == "" || !IsDigit(rest[0])
    ensures ParseRange(start + "," + count + rest) == Some(Range(start, count, rest))
  {
    var tail := count + rest;
    var s := start + "," + count + rest;
    assert s == start + ("," + tail);
    DigitRunStops(start, "," + tail);
    DigitRunStops(count, rest);
    assert s[|start|..] == "," + tail && s[..|start|] == start;
    assert ("," + tail)[1..] == tail;
    assert tail[..|count|] == count && tail[|count|..] == rest;
  }

  /** A printed header reads back as the numbers it was printed from. */
  lemma {:induction false} ParsePrintedHeader(oldStart: nat, oldCount: nat, newStart: nat, newCount: nat)
    requires oldStart <= MAX_INT && oldCount <= MAX_INT
    ensures ParseHeader(UnifiedDiff.HunkHeader(oldStart, oldCount, newStart, newCount)) == Some(Header(oldStart, oldCount))
  {
    var line := UnifiedDiff.HunkHeader(oldStart, oldCount, newStart, newCount);
    var tail := Decimal(newStart) + "," + Decimal(newCount) + " @@";
    assert line == "@@ -" + (Decimal(oldStart) + "," + Decimal(oldCount) + (" +" + tail));
    assert line[4..] == Decimal(oldStart) + "," + Decimal(oldCount) + (" +" + tail);
    ParseSplitRange(Decimal(oldStart), Decimal(oldCount), " +" + tail);
    assert (" +" + tail)[2..] == tail;
    ParseSplitRange(Decimal(newStart), Decimal(newCount), " @@");
    AtoiDecimal(oldStart);
    AtoiDecimal(oldCount);
  }

  // ----- parsePatch -----

  /** What the inner loop of parsePatch reads: the two sides of a hunk, and the lines it leaves. */
  datatype HunkBody = HunkBody(oldLines: seq<string>, newLines: seq<string>, rest: seq<string>)

  const NO_NEWLINE: string := "\\ No newline at end of file"

  predicate EndsHunk(lines: seq<string>) {
    || |lines| == 0
    || HasPrefix(lines[0], "@@ ")
    || HasPrefix(lines[0], "--- ")
    || HasPrefix(lines[0], "+++ ")
    || (lines[0] == "" && |lines| == 1)
  }

  function ParseBody(lines: seq<string>): (body: Result<HunkBody, PatchError>)
    ensures body.Ok? ==> |body.value.rest| <= |lines|
  {
    if EndsHunk(lines) then Ok(HunkBody([], [], lines))
    else if lines[0] == NO_NEWLINE then ParseBody(lines[1..])
    else if lines[0] == "" then Err(UnprefixedEmptyLine)
    else if lines[0][0] != ' ' && lines[0][0] != '-' && lines[0][0] != '+' then Err(InvalidPrefix(lines[0][0]))
    else
      var text := lines[0][1..];
      match ParseBody(lines[1..])
      case Err(e) => Err(e)
      case Ok(body) =>
        Ok(HunkBody(if lines[0][0] == '+' then body.oldLines else [text] + body.oldLines,
                    if lines[0][0] == '-' then body.newLines else [text] + body.newLines,
                    body.rest))
  }

  function ParseHunks(lines: seq<string>): Result<seq<PatchHunk>, PatchError>
    decreases |lines|
  {
    if |lines| == 0 then Ok([])
    else
      match ParseHeader(lines[0])
      case None => ParseHunks(lines[1..])
      case Some(header) =>
        match ParseBody(lines[1..])
        case Err(e) => Err(e)
        case Ok(body) =>
          if |body.oldLines| != header.oldCount then Err(OldCountMismatch(header.oldCount, |body.oldLines|))
          else
            match ParseHunks(body.rest)
            case Err(e) => Err(e)
            case Ok(hunks) => Ok([PatchHunk(header.oldStart, body.oldLines, body.newLines)] + hunks)
  }

  /** The hunks that parsePatch reads out of a patch. */
  function ParsePatch(patch: string): Result<seq<PatchHunk>, PatchError> {
    match ParseHunks(Split(FoldCrlf(patch)))
    case Err(e) => Err(e)
    case Ok(hunks) => if |hunks| == 0 then Err(NoHunks) else Ok(hunks)
  }

  // ----- matchingPosition -----

  predicate Matches(lines: seq<string>, expectedLines: seq<string>, position: int) {
    0 <= position <= position + |expectedLines| <= |lines|
    && lines[position..position + |expectedLines|] == expectedLines
  }

  function Distance(a: int, b: int): nat {
    if a < b then b - a else a - b
  }

  /** `found` is the match nearest to `expected`, the earlier of two equally near; -1 when none is within fuzz. */
  ghost predicate IsNearest(lines: seq<string>, expectedLines: seq<string>, expected: int, fuzz: int, found: int) {
    if found == -1 then
      forall p :: Distance(p, expected) <= fuzz ==> !Matches(lines, expectedLines, p)
    else
      && Matches(lines, expectedLines, found)
      && Distance(found, expected) <= fuzz
      && forall p :: Distance(p, expected) < Distance(found, expected)
                     || (Distance(p, expected) == Distance(found, expected) && p < found)
                     ==> !Matches(lines, expectedLines, p)
  }

  function SearchFrom(lines: seq<string>, expectedLines: seq<string>, expected: int, fuzz: int, distance: nat): int
    decreases fuzz - distance
  {
    if distance > fuzz then -1
    else if Matches(lines, expectedLines, expected - distance) then expected - distance
    else if Matches(lines, expectedLines, expected + distance) then expected + distance
    else SearchFrom(lines, expectedLines, expected, fuzz, distance + 1)
  }

  function MatchingPosition(lines: seq<string>, expectedLines: seq<string>, expected: int, fuzz: int): int {
    SearchFrom(lines, expectedLines, expected, fuzz, 0)
  }

  lemma {:induction false} SearchFindsNearest(lines: seq<string>, expectedLines: seq<string>, expected: int, fuzz: nat, distance: nat)
    requires distance <= fuzz + 1
    requires forall p :: Distance(p, expected) < distance ==> !Matches(lines, expectedLines, p)
    ensures IsNearest(lines, expectedLines, expected, fuzz, SearchFrom(lines, expectedLines, expected, fuzz, distance))
    decreases fuzz + 1 - distance
  {
    if distance <= fuzz
       && !Matches(lines, expectedLines, expected - distance) && !Matches(lines, expectedLines, expected + distance) {
      forall p | Distance(p, expected) < distance + 1 ensures !Matches(lines, expectedLines, p) {
        if Distance(p, expected) == distance {
          assert p == expected - distance || p == expected + distance;
        }
      }
      SearchFindsNearest(lines, expectedLines, expected, fuzz, distance + 1);
    }
  }

  lemma {:induction false} MatchingPositionIsNearest(lines: seq<string>, expectedLines: seq<string>, expected: int, fuzz: nat)
    ensures IsNearest(lines, expectedLines, expected, fuzz, MatchingPosition(lines, expectedLines, expected, fuzz))
  {
    SearchFindsNearest(lines, expectedLines, expected, fuzz, 0);
  }

  // ----- The same search in ints -----

  /** What comparing lines at a position gives; an index out of range is a panic. */
  datatype Probe = Hit | Miss | OutOfRange

  datatype Search = Found(position: nat) | NotFound | Panics

  /** The comparison from line `index` of the expected ones on. */
  function ProbeFrom(lines: seq<string>, expectedLines: seq<string>, position: int, index: nat): Probe
    requires index <= |expectedLines|
    decreases |expectedLines| - index
  {
    if index == |expectedLines| then Hit
    else if !(0 <= Wrap(position + index) < |lines|) then OutOfRange
    else if lines[Wrap(position + index)] != expectedLines[index] then Miss
    else ProbeFrom(lines, expectedLines, position, index + 1)
  }

  /** The end of the lines at the position is computed as an `int`: beyond the largest one it is negative. */
  function ProbeAt(lines: seq<string>, expectedLines: seq<string>, position: int): (probe: Probe)
    ensures probe.Hit? ==> position >= 0
  {
    if position < 0 || Wrap(position + |expectedLines|) > |lines| then Miss
    else ProbeFrom(lines, expectedLines, position, 0)
  }

  function SearchIntsFrom(lines: seq<string>, expectedLines: seq<string>, expected: int, fuzz: nat, distance: nat): Search
    decreases fuzz - distance
  {
    if distance > fuzz then NotFound
    else
      match ProbeAt(lines, expectedLines, Wrap(expected - distance))
      case Hit => Found(Wrap(expected - distance))
      case OutOfRange => Panics
      case Miss =>
        match ProbeAt(lines, expectedLines, Wrap(expected + distance))
        case Hit => Found(Wrap(expected + distance))
        case OutOfRange => Panics
        case Miss => SearchIntsFrom(lines, expectedLines, expected, fuzz, distance + 1)
  }

  /** matchingPosition. */
  function SearchInts(lines: seq<string>, expectedLines: seq<string>, expected: int, fuzz: nat): Search {
    SearchIntsFrom(lines, expectedLines, expected, fuzz, 0)
  }

  predicate AgreeAt(lines: seq<string>, expectedLines: seq<string>, position: nat, i: nat) {
    position + i < |lines| && i < |expectedLines| && lines[position + i] == expectedLines[i]
  }

  lemma {:induction false} ProbedLines(lines: seq<string>, expectedLines: seq<string>, position: nat, index: nat)
    requires index <= |expectedLines| && position <= MAX_INT && position + index <= MAX_INT + 1
    ensures var probe := ProbeFrom(lines, expectedLines, position, index);
            && (probe.Hit? ==> forall i :: index <= i < |expectedLines| ==> AgreeAt(lines, expectedLines, position, i))
            && (probe.Hit? && index < |expectedLines| ==> position + |expectedLines| <= |lines|)
            && (position + |expectedLines| <= Min(|lines|, MAX_INT) ==> !probe.OutOfRange?)
            && (position + |expectedLines| <= Min(|lines|, MAX_INT) ==>
                  (forall i :: index <= i < |expectedLines| ==> AgreeAt(lines, expectedLines, position, i)) ==> probe.Hit?)
    decreases |expectedLines| - index
  {
    if index < |expectedLines| {
      if position + index == MAX_INT + 1 {
        assert Wrap(position + index) < 0;
      } else {
        assert Wrap(position + index) == position + index;
        if AgreeAt(lines, expectedLines, position, index) {
          ProbedLines(lines, expectedLines, position, index + 1);
        }
      }
    }
  }

  lemma {:induction false} MatchesElements(lines: seq<string>, expectedLines: seq<string>, position: nat)
    ensures Matches(lines, expectedLines, position)
       <==> position + |expectedLines| <= |lines|
            && forall i :: 0 <= i < |expectedLines| ==> AgreeAt(lines, expectedLines, position, i)
  {
    if position + |expectedLines| <= |lines| {
      var part := lines[position..position + |expectedLines|];
      assert forall i :: 0 <= i < |expectedLines| ==> (part[i] == expectedLines[i] <==> AgreeAt(lines, expectedLines, position, i));
      if forall i :: 0 <= i < |expectedLines| ==> AgreeAt(lines, expectedLines, position, i) {
        assert part == expectedLines;
      }
    }
  }

  /** A hit is a match, whatever the ints do. */
  lemma {:induction false} HitMatches(lines: seq<string>, expectedLines: seq<string>, position: int)
    requires position <= MAX_INT && ProbeAt(lines, expectedLines, position).Hit?
    ensures Matches(lines, expectedLines, position)
  {
    ProbedLines(lines, expectedLines, position, 0);
    MatchesElements(lines, expectedLines, position);
  }

  /** As long as the end of the lines is an `int`, a probe tells a match from a mismatch. */
  lemma {:induction false} ProbeTellsMatches(lines: seq<string>, expectedLines: seq<string>, position: int)
    requires position + |expectedLines| <= MAX_INT
    ensures ProbeAt(lines, expectedLines, position) == if Matches(lines, expectedLines, position) then Hit else Miss
  {
    if position >= 0 {
      if position + |expectedLines| <= |lines| {
        ProbedLines(lines, expectedLines, position, 0);
      }
      MatchesElements(lines, expectedLines, position);
      if ProbeAt(lines, expectedLines, position).Hit? {
        HitMatches(lines, expectedLines, position);
      }
    }
  }

  /** Beyond that the guard lets the position pass, and the first line is out of range. */
  lemma {:induction false} ProbeBeyond(lines: seq<string>, expectedLines: seq<string>, position: int)
    requires |lines| + |expectedLines| <= MAX_INT && position <= MAX_INT < position + |expectedLines|
    ensures ProbeAt(lines, expectedLines, position) == OutOfRange && !Matches(lines, expectedLines, position)
  {
    assert Wrap(position + |expectedLines|) < 0;
  }

  /** Whatever is found matches. */
  lemma {:induction false} FoundMatches(lines: seq<string>, expectedLines: seq<string>, expected: int, fuzz: nat, distance: nat)
    ensures var found := SearchIntsFrom(lines, expectedLines, expected, fuzz, distance);
            found.Found? ==> Matches(lines, expectedLines, found.position)
    decreases fuzz + 1 - distance
  {
    if distance <= fuzz {
      var below, above := Wrap(expected - distance), Wrap(expected + distance);
      if ProbeAt(lines, expectedLines, below).Hit? {
        HitMatches(lines, expectedLines, below);
      } else if ProbeAt(lines, expectedLines, above).Hit? {
        HitMatches(lines, expectedLines, above);
      }
      if ProbeAt(lines, expectedLines, below).Miss? && ProbeAt(lines, expectedLines, above).Miss? {
        FoundMatches(lines, expectedLines, expected, fuzz, distance + 1);
      }
    }
  }

  function AsSearch(position: int): Search {
    if position < 0 then NotFound else Found(position)
  }

  /** The first distance at which the end of the lines is beyond the ints. */
  function FirstBeyond(expectedLines: seq<string>, expected: int): nat {
    Max(0, MAX_INT + 1 - |expectedLines| - expected)
  }

  /** The search gets there, not having found a match nearer by. */
  predicate GoesBeyond(lines: seq<string>, expectedLines: seq<string>, expected: int, fuzz: nat) {
    var position := MatchingPosition(lines, expectedLines, expected, fuzz);
    && |expectedLines| > 0
    && FirstBeyond(expectedLines, expected) <= fuzz
    && (position < 0 || FirstBeyond(expectedLines, expected) < Distance(position, expected))
  }

  lemma {:induction false} SearchRange(lines: seq<string>, expectedLines: seq<string>, expected: int, fuzz: int, distance: nat)
    ensures var position := SearchFrom(lines, expectedLines, expected, fuzz, distance);
            && position >= -1
            && (position >= 0 ==> distance <= Distance(position, expected) <= fuzz && Matches(lines, expectedLines, position))
    decreases fuzz + 1 - distance
  {
    if distance <= fuzz && !Matches(lines, expectedLines, expected - distance) && !Matches(lines, expectedLines, expected + distance) {
      SearchRange(lines, expectedLines, expected, fuzz, distance + 1);
    }
  }

  lemma {:induction false} ProbeValue(lines: seq<string>, expectedLines: seq<string>, position: int)
    requires |lines| + |expectedLines| <= MAX_INT && MIN_INT <= position <= 2 * MAX_INT
    ensures ProbeAt(lines, expectedLines, Wrap(position))
         == if position + |expectedLines| > MAX_INT >= position then OutOfRange
            else if Matches(lines, expectedLines, position) then Hit else Miss
    ensures position + |expectedLines| > MAX_INT ==> !Matches(lines, expectedLines, position)
  {
    if position > MAX_INT {
      assert Wrap(position) < 0;
    } else if position + |expectedLines| > MAX_INT {
      ProbeBeyond(lines, expectedLines, position);
    } else {
      ProbeTellsMatches(lines, expectedLines, position);
    }
  }

  lemma {:induction false} SearchTurns(lines: seq<string>, expectedLines: seq<string>, expected: int, fuzz: nat, distance: nat)
    requires |lines| + |expectedLines| <= MAX_INT && MIN_INT <= expected - fuzz && expected <= MAX_INT
    requires fuzz <= MAX_INT && distance <= fuzz + 1
    requires distance > 0 && |expectedLines| > 0 ==> distance <= FirstBeyond(expectedLines, expected)
    ensures var position := SearchFrom(lines, expectedLines, expected, fuzz, distance);
            var beyond := FirstBeyond(expectedLines, expected);
            SearchIntsFrom(lines, expectedLines, expected, fuzz, distance)
            == if |expectedLines| > 0 && beyond <= fuzz && (position < 0 || beyond < Distance(position, expected)) then Panics
               else AsSearch(position)
    decreases fuzz + 1 - distance
  {
    hide ProbeAt, Matches;
    if distance <= fuzz {
      SearchRange(lines, expectedLines, expected, fuzz, distance);
      ProbeValue(lines, expectedLines, expected - distance);
      ProbeValue(lines, expectedLines, expected + distance);
      assert Matches(lines, expectedLines, expected - distance) ==> expected - distance >= 0 by {
        MatchIsInside(lines, expectedLines, expected - distance);
      }
      assert Matches(lines, expectedLines, expected + distance) ==> expected + distance >= 0 by {
        MatchIsInside(lines, expectedLines, expected + distance);
      }
      if ProbeAt(lines, expectedLines, Wrap(expected - distance)).Miss? && ProbeAt(lines, expectedLines, Wrap(expected + distance)).Miss? {
        SearchTurns(lines, expectedLines, expected, fuzz, distance + 1);
      }
    }
  }

  lemma {:induction false} MatchIsInside(lines: seq<string>, expectedLines: seq<string>, position: int)
    ensures Matches(lines, expectedLines, position) ==> 0 <= position <= |lines|
  {
  }

  /**
   The search in ints finds the nearest match or reports that there is none, unless it first comes to a position whose
   end is beyond the largest `int`: there it panics, and only there.
   */
  lemma {:induction false} SearchIsNearest(lines: seq<string>, expectedLines: seq<string>, expected: int, fuzz: nat)
    requires |lines| + |expectedLines| <= MAX_INT && MIN_INT <= expected - fuzz && expected <= MAX_INT && fuzz <= MAX_INT
    ensures var search := SearchInts(lines, expectedLines, expected, fuzz);
            && (search.Panics? <==> GoesBeyond(lines, expectedLines, expected, fuzz))
            && (search.Found? ==> IsNearest(lines, expectedLines, expected, fuzz, search.position))
            && (search.NotFound? ==> IsNearest(lines, expectedLines, expected, fuzz, -1))
  {
    SearchTurns(lines, expectedLines, expected, fuzz, 0);
    SearchRange(lines, expectedLines, expected, fuzz, 0);
    MatchingPositionIsNearest(lines, expectedLines, expected, fuzz);
  }

  // ----- applyUnifiedPatch -----

  function Splice(lines: seq<string>, position: nat, count: nat, replacement: seq<string>): seq<string>
    requires position + count <= |lines|
  {
    lines[..position] + replacement + lines[position + count..]
  }

  /** Applies `hunks`, the first of which is number `index`, when the lines so far have shifted by `delta`. */
  function ApplyFrom(lines: seq<string>, hunks: seq<PatchHunk>, fuzz: nat, index: nat, delta: int)
    : Result<seq<string>, PatchError>
    decreases |hunks|
  {
    if |hunks| == 0 then Ok(lines)
    else
      var hunk := hunks[0];
      var expected := Wrap(hunk.oldStart - 1 + delta);
      FoundMatches(lines, hunk.oldLines, expected, fuzz, 0);
      match SearchInts(lines, hunk.oldLines, expected, fuzz)
      case NotFound => Err(HunkDoesNotMatch(index))
      case Panics => Err(IndexOutOfRange(index))
      case Found(position) =>
        ApplyFrom(Splice(lines, position, |hunk.oldLines|, hunk.newLines), hunks[1..], fuzz, index + 1,
                  delta + |hunk.newLines| - |hunk.oldLines|)
  }

  /** A header can name a line so high that the end of two lines from there is beyond the ints: applying it panics. */
  lemma {:induction false} HighLinePanics(lines: seq<string>, a: string, b: string, newLines: seq<string>)
    requires |lines| + 2 <= MAX_INT
    ensures ParseHeader(UnifiedDiff.HunkHeader(MAX_INT, 2, 1, 2)) == Some(Header(MAX_INT, 2))
    ensures ApplyFrom(lines, [PatchHunk(MAX_INT, [a, b], newLines)], 0, 0, 0) == Err(IndexOutOfRange(0))
  {
    ParsePrintedHeader(MAX_INT, 2, 1, 2);
    ProbeBeyond(lines, [a, b], MAX_INT - 1);
  }

  function JoinText(lines: seq<string>, trailing: bool): string {
    Join(lines) + if trailing then "\n" else ""
  }

  /** The text and the number of hunks that applyUnifiedPatch returns, or its error. */
  function ApplyPatch(base: string, patch: string, fuzz: int): Result<(string, nat), PatchError> {
    if fuzz < 0 then Err(NegativeFuzz)
    else
      match ParsePatch(patch)
      case Err(e) => Err(e)
      case Ok(hunks) =>
        var (lines, trailing) := UnifiedDiff.SplitTextLines(base);
        match ApplyFrom(lines, hunks, fuzz, 0, 0)
        case Err(e) => Err(e)
        case Ok(result) => Ok((JoinText(result, trailing), |hunks|))
  }

  // ----- The methods of the source -----

  method ProbePosition(lines: seq<string>, expectedLines: seq<string>, position: int) returns (probe: Probe)
    ensures probe == ProbeAt(lines, expectedLines, position)
  {
    if position < 0 || Wrap(position + |expectedLines|) > |lines| {
      return Miss;
    }
    for index := 0 to |expectedLines|
      invariant ProbeFrom(lines, expectedLines, position, index) == ProbeFrom(lines, expectedLines, position, 0)
    {
      var at := Wrap(position + index);
      if at < 0 || at >= |lines| {
        return OutOfRange;
      }
      if lines[at] != expectedLines[index] {
        return Miss;
      }
    }
    return Hit;
  }

  method FindPosition(lines: seq<string>, expectedLines: seq<string>, expected: int, fuzz: nat) returns (search: Search)
    requires MIN_INT <= expected <= MAX_INT
    ensures search == SearchInts(lines, expectedLines, expected, fuzz)
    ensures search.Found? ==> Matches(lines, expectedLines, search.position)
  {
    FoundMatches(lines, expectedLines, expected, fuzz, 0);
    var probe := ProbePosition(lines, expectedLines, expected);
    if probe.Hit? {
      return Found(expected);
    } else if probe.OutOfRange? {
      return Panics;
    }
    var distance := 1;
    while distance <= fuzz
      invariant 1 <= distance <= fuzz + 1
      invariant SearchIntsFrom(lines, expectedLines, expected, fuzz, distance) == SearchInts(lines, expectedLines, expected, fuzz)
    {
      probe := ProbePosition(lines, expectedLines, Wrap(expected - distance));
      if probe.Hit? {
        return Found(Wrap(expected - distance));
      } else if probe.OutOfRange? {
        return Panics;
      }
      probe := ProbePosition(lines, expectedLines, Wrap(expected + distance));
      if probe.Hit? {
        return Found(Wrap(expected + distance));
      } else if probe.OutOfRange? {
        return Panics;
      }
      distance := distance + 1;
    }
    return NotFound;
  }

  /** The result of reading `lines` after oldLines and newLines were read before them. */
  function After(oldLines: seq<string>, newLines: seq<string>, body: Result<HunkBody, PatchError>): Result<HunkBody, PatchError> {
    match body
    case Err(e) => Err(e)
    case Ok(b) => Ok(HunkBody(oldLines + b.oldLines, newLines + b.newLines, b.rest))
  }

  lemma {:induction false} AfterNothing(body: Result<HunkBody, PatchError>)
    ensures After([], [], body) == body
  {
    if body.Ok? {
      assert [] + body.value.oldLines == body.value.oldLines && [] + body.value.newLines == body.value.newLines;
    }
  }

  lemma {:induction false} AfterLine(oldLines: seq<string>, newLines: seq<string>, lines: seq<string>)
    requires !EndsHunk(lines) && lines[0] != NO_NEWLINE && lines[0] != ""
    requires lines[0][0] == ' ' || lines[0][0] == '-' || lines[0][0] == '+'
    ensures After(oldLines, newLines, ParseBody(lines))
         == After(if lines[0][0] == '+' then oldLines else oldLines + [lines[0][1..]],
                  if lines[0][0] == '-' then newLines else newLines + [lines[0][1..]],
                  ParseBody(lines[1..]))
  {
    var text := lines[0][1..];
    var body := ParseBody(lines[1..]);
    if body.Ok? {
      assert oldLines + ([text] + body.value.oldLines) == oldLines + [text] + body.value.oldLines;
      assert newLines + ([text] + body.value.newLines) == newLines + [text] + body.value.newLines;
    }
  }

  lemma {:induction false} AfterEnd(oldLines: seq<string>, newLines: seq<string>, lines: seq<string>)
    requires EndsHunk(lines)
    ensures After(oldLines, newLines, ParseBody(lines)) == Ok(HunkBody(oldLines, newLines, lines))
  {
    assert oldLines + [] == oldLines && newLines + [] == newLines;
  }

  /** The inner loop of parsePatch; `index` is where it stopped. */
  method ReadBody(lines: seq<string>, start: nat) returns (body: Result<HunkBody, PatchError>, index: nat)
    requires start <= |lines|
    ensures body == ParseBody(lines[start..])
    ensures start <= index <= |lines| && (body.Ok? ==> body.value.rest == lines[index..])
  {
    index := start;
    var oldLines, newLines := [], [];
    AfterNothing(ParseBody(lines[start..]));
    while index < |lines| && !HasPrefix(lines[index], "@@ ")
      invariant start <= index <= |lines|
      invariant After(oldLines, newLines, ParseBody(lines[index..])) == ParseBody(lines[start..])
    {
      var line := lines[index];
      ghost var suffix := lines[index..];
      assert suffix[0] == line && suffix[1..] == lines[index + 1..];
      if HasPrefix(line, "--- ") || HasPrefix(line, "+++ ") {
        break;
      }
      if line == NO_NEWLINE {
        index := index + 1;
        continue;
      }
      if line == "" && index == |lines| - 1 {
        break;
      }
      if line == "" {
        return Err(UnprefixedEmptyLine), index;
      }
      if line[0] != ' ' && line[0] != '-' && line[0] != '+' {
        return Err(InvalidPrefix(line[0])), index;
      }
      AfterLine(oldLines, newLines, suffix);
      if line[0] == ' ' {
        oldLines, newLines := oldLines + [line[1..]], newLines + [line[1..]];
      } else if line[0] == '-' {
        oldLines := oldLines + [line[1..]];
      } else {
        newLines := newLines + [line[1..]];
      }
      index := index + 1;
    }
    AfterEnd(oldLines, newLines, lines[index..]);
    body := Ok(HunkBody(oldLines, newLines, lines[index..]));
  }

  function Prepend(before: seq<PatchHunk>, hunks: Result<seq<PatchHunk>, PatchError>): Result<seq<PatchHunk>, PatchError> {
    match hunks
    case Err(e) => Err(e)
    case Ok(rest) => Ok(before + rest)
  }

  lemma {:induction false} PrependNext(before: seq<PatchHunk>, hunk: PatchHunk, hunks: Result<seq<PatchHunk>, PatchError>)
    ensures hunks.Ok? ==> Prepend(before, Ok([hunk] + hunks.value)) == Prepend(before + [hunk], hunks)
    ensures Prepend([], hunks) == hunks
  {
    if hunks.Ok? {
      assert before + ([hunk] + hunks.value) == before + [hunk] + hunks.value;
      assert [] + hunks.value == hunks.value;
    }
  }

  /** parsePatch. */
  method ReadPatch(patch: string) returns (result: Result<seq<PatchHunk>, PatchError>)
    ensures result == ParsePatch(patch)
  {
    var lines := Split(FoldCrlf(patch));
    var hunks := [];
    var index := 0;
    ghost var whole := ParseHunks(lines);
    assert lines[0..] == lines;
    PrependNext([], PatchHunk(0, [], []), whole);
    while index < |lines|
      invariant 0 <= index <= |lines|
      invariant Prepend(hunks, ParseHunks(lines[index..])) == whole
    {
      var found := ParseHeader(lines[index]);
      assert lines[index..][0] == lines[index] && lines[index..][1..] == lines[index + 1..];
      if found.None? {
        index := index + 1;
        continue;
      }
      var body, next := ReadBody(lines, index + 1);
      if body.Err? {
        return Err(body.error);
      }
      if |body.value.oldLines| != found.value.oldCount {
        return Err(OldCountMismatch(found.value.oldCount, |body.value.oldLines|));
      }
      var hunk := PatchHunk(found.value.oldStart, body.value.oldLines, body.value.newLines);
      PrependNext(hunks, hunk, ParseHunks(lines[next..]));
      hunks := hunks + [hunk];
      index := next;
    }
    assert hunks + [] == hunks;
    if |hunks| == 0 {
      return Err(NoHunks);
    }
    return Ok(hunks);
  }

  /** The loop of applyUnifiedPatch: each hunk is searched where the hunks before it have moved it. */
  method ApplyHunks(base: seq<string>, hunks: seq<PatchHunk>, fuzz: nat) returns (result: Result<seq<string>, PatchError>)
    ensures result == ApplyFrom(base, hunks, fuzz, 0, 0)
  {
    var lines := base;
    var delta := 0;
    assert hunks[0..] == hunks;
    ghost var whole := ApplyFrom(base, hunks, fuzz, 0, 0);
    for index := 0 to |hunks|
      invariant ApplyFrom(lines, hunks[index..], fuzz, index, delta) == whole
    {
      assert hunks[index..][0] == hunks[index] && hunks[index..][1..] == hunks[index + 1..];
      var hunk := hunks[index];
      var search := FindPosition(lines, hunk.oldLines, Wrap(hunk.oldStart - 1 + delta), fuzz);
      if search.NotFound? {
        return Err(HunkDoesNotMatch(index));
      } else if search.Panics? {
        return Err(IndexOutOfRange(index));
      }
      lines := Splice(lines, search.position, |hunk.oldLines|, hunk.newLines);
      delta := delta + |hunk.newLines| - |hunk.oldLines|;
    }
    result := Ok(lines);
  }

  /** applyUnifiedPatch. */
  method Apply(base: string, patch: string, fuzz: int) returns (result: Result<(string, nat), PatchError>)
    ensures result == ApplyPatch(base, patch, fuzz)
  {
    if fuzz < 0 {
      return Err(NegativeFuzz);
    }
    var hunks := ReadPatch(patch);
    if hunks.Err? {
      return Err(hunks.error);
    }
    var (lines, trailing) := UnifiedDiff.SplitTextLines(base);
    var applied := ApplyHunks(lines, hunks.value, fuzz);
    if applied.Err? {
      return Err(applied.error);
    }
    return Ok((JoinText(applied.value, trailing), |hunks.value|));
  }
}
