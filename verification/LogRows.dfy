/**
 The rows of an outline, and the clamp of long lines.  Characters are bytes.

 A group has a head and a row for every slot that varies.  The clamp counts runes: a byte that is no part of a
 character counts as one, and becomes the replacement character when the line is cut.
 */
module LogRows {
  import opened Text
  import opened Utf8
  import opened LineRanges
  import opened LineSets
  import opened LogTemplates

  // ----- Clamping lines -----

  /** What a byte that is no part of a character becomes, in UTF-8. */
  const REPLACEMENT := "\U{EF}\U{BF}\U{BD}"

  /** The bytes that make up the next rune; a byte that is no part of a character counts as one. */
  function RuneStep(s: string): (n: nat)
    requires |s| > 0
    ensures 0 < n <= |s|
  {
    Max(1, RuneLength(s))
  }

  /** `len([]rune(s))`. */
  function RuneCount(s: string): nat
    decreases |s|
  {
    if |s| == 0 then 0 else 1 + RuneCount(s[RuneStep(s)..])
  }

  /** `string([]rune(s)[:n])`. */
  function FirstRunes(s: string, n: nat): string
    decreases n
  {
    if n == 0 || |s| == 0 then ""
    else (if RuneLength(s) > 0 then s[..RuneStep(s)] else REPLACEMENT) + FirstRunes(s[RuneStep(s)..], n - 1)
  }

  function ClampMark(left: nat): string {
    "\U{E2}\U{80}\U{A6}(+" + Decimal(left) + " chars)"
  }

  function ClampLine(line: string, width: nat): string {
    if RuneCount(line) > width then FirstRunes(line, width) + ClampMark(RuneCount(line) - width) else line
  }

  function Clamped(lines: seq<string>, width: nat): (clamped: seq<string>)
    ensures |clamped| == |lines|
  {
    seq(|lines|, i requires 0 <= i < |lines| => ClampLine(lines[i], width))
  }

  method ClampLines(text: string, width: nat) returns (clamped: string, any: bool)
    ensures clamped == Join(Clamped(Split(text), width))
    ensures any <==> exists i :: 0 <= i < |Split(text)| && RuneCount(Split(text)[i]) > width
  {
    hide Split, FirstRunes, ClampMark;
    var lines := Split(text);
    any := false;
    for i := 0 to |lines|
      invariant |lines| == |Split(text)|
      invariant forall j :: 0 <= j < i ==> lines[j] == ClampLine(Split(text)[j], width)
      invariant forall j :: i <= j < |lines| ==> lines[j] == Split(text)[j]
      invariant any <==> exists j :: 0 <= j < i && RuneCount(Split(text)[j]) > width
    {
      if RuneCount(lines[i]) > width {
        lines := lines[i := FirstRunes(lines[i], width) + ClampMark(RuneCount(lines[i]) - width)];
        any := true;
      }
    }
    assert lines == Clamped(Split(text), width);
    clamped := Join(lines);
  }

  /** One rune in front of others. */
  lemma {:induction false} RuneBefore(rune: string, rest: string)
    requires |rune| > 0 && RuneLength(rune) == |rune| && Valid(rest)
    ensures Valid(rune + rest) && RuneCount(rune + rest) == 1 + RuneCount(rest)
  {
    hide RuneLength;
    RuneInFront(rune, rest);
    assert (rune + rest)[|rune|..] == rest;
  }

  lemma {:induction false} FirstRunesOfValid(s: string, n: nat)
    requires Valid(s) && n <= RuneCount(s)
    ensures FirstRunes(s, n) <= s && Valid(FirstRunes(s, n)) && RuneCount(FirstRunes(s, n)) == n
    decreases n
  {
    hide RuneLength;
    if n > 0 {
      var k := RuneLength(s);
      var rune, rest := s[..k], FirstRunes(s[k..], n - 1);
      FirstRunesOfValid(s[k..], n - 1);
      RuneInPrefix(s, k);
      hide Valid;
      RuneBefore(rune, rest);
      assert s == rune + s[k..];
      assert FirstRunes(s, n) == rune + rest;
      hide FirstRunes, RuneCount;
    }
  }

  /** A valid line that is too long keeps its first characters, as many as fit, and says how many it lost. */
  lemma {:induction false} ClampIsHonest(line: string, width: nat)
    requires Valid(line)
    ensures RuneCount(line) <= width ==> ClampLine(line, width) == line
    ensures RuneCount(line) > width ==> exists head, left ::
              && head <= line && Valid(head) && RuneCount(head) == width && RuneCount(head) + left == RuneCount(line)
              && ClampLine(line, width) == head + ("\U{E2}\U{80}\U{A6}(+" + Decimal(left) + " chars)")
  {
    hide Valid, Decimal;
    if RuneCount(line) > width {
      FirstRunesOfValid(line, width);
      assert ClampLine(line, width) == FirstRunes(line, width) + ClampMark(RuneCount(line) - width);
    }
  }

  lemma {:induction false} FirstRunesLfFree(s: string, n: nat)
    requires LfFree(s)
    ensures LfFree(FirstRunes(s, n))
    decreases n
  {
    hide RuneLength;
    if n > 0 && |s| > 0 {
      var k := RuneStep(s);
      var rune, rest := if RuneLength(s) > 0 then s[..k] else REPLACEMENT, FirstRunes(s[k..], n - 1);
      assert LfFree(s[k..]) && LfFree(rune) by {
        hide FirstRunes;
      }
      FirstRunesLfFree(s[k..], n - 1);
      assert FirstRunes(s, n) == rune + rest;
      hide FirstRunes, RuneStep;
    }
  }

  lemma {:induction false} ClampedLfFree(lines: seq<string>, width: nat)
    requires AllLfFree(lines)
    ensures AllLfFree(Clamped(lines, width))
  {
    hide FirstRunes, RuneCount;
    forall i | 0 <= i < |lines| ensures LfFree(ClampLine(lines[i], width)) {
      FirstRunesLfFree(lines[i], width);
      if RuneCount(lines[i]) > width {
        DigitsAreLfFree(Decimal(RuneCount(lines[i]) - width));
      }
    }
  }

  /** Line for line: clamping neither splits nor joins any. */
  lemma {:induction false} ClampKeepsLines(lines: seq<string>, width: nat)
    requires |lines| > 0 && AllLfFree(lines)
    ensures Split(Join(Clamped(Split(Join(lines)), width))) == Clamped(lines, width)
  {
    hide Split, Join;
    SplitJoin(lines);
    ClampedLfFree(lines, width);
    SplitJoin(Clamped(lines, width));
  }

  // ----- The rows of a group -----

  /** The prefix of every row, and the wording for the distinct values of a slot in so many rows. */
  datatype Style = Style(indent: string, describe: (seq<string>, nat) -> string)

  function Spaces(n: nat): string {
    if n == 0 then "" else " " + Spaces(n - 1)
  }

  /** `%-13s`, for ASCII. */
  function Padded(span: string): string {
    span + Spaces(Max(0, 13 - |span|))
  }

  function CountSuffix(n: nat): string {
    if n > 1 then "  \U{C3}\U{97}" + Decimal(n) else ""
  }

  function HeadRow(style: Style, group: Group): string
    requires |group.rows| > 0
  {
    style.indent + Padded(SpanText(group.lines)) + " " + TrimSpace(HeadText(group)) + CountSuffix(|group.rows|)
  }

  /** All rows have as many slots as the first. */
  predicate Even(rows: seq<seq<string>>) {
    forall r :: 0 <= r < |rows| ==> |rows[r]| == |rows[0]|
  }

  /** The values of slot i, each once, in the order of their first rows. */
  function Distinct(rows: seq<seq<string>>, i: nat): seq<string>
    requires Even(rows) && (|rows| > 0 ==> i < |rows[0]|)
  {
    if |rows| == 0 then []
    else
      var n := |rows| - 1;
      var front := Distinct(rows[..n], i);
      if rows[n][i] in front then front else front + [rows[n][i]]
  }

  /** They come in the order of their first rows. */
  lemma {:induction false} DistinctInOrder(rows: seq<seq<string>>, i: nat, a: nat, b: nat)
    requires Even(rows) && |rows| > 0 && i < |rows[0]| && a < b < |Distinct(rows, i)|
    ensures exists r :: 0 <= r < |rows| && rows[r][i] == Distinct(rows, i)[a] && forall s :: 0 <= s <= r ==> rows[s][i] != Distinct(rows, i)[b]
    decreases |rows|
  {
    var n := |rows| - 1;
    var values, front := Distinct(rows, i), Distinct(rows[..n], i);
    assert front <= values;
    if b < |front| {
      DistinctInOrder(rows[..n], i, a, b);
      var r :| 0 <= r < n && rows[..n][r][i] == front[a] && forall s :: 0 <= s <= r ==> rows[..n][s][i] != front[b];
      assert rows[r][i] == values[a] && forall s :: 0 <= s <= r ==> rows[s] == rows[..n][s];
    } else {
      DistinctAreTheValues(rows[..n], i, front[a]);
      DistinctAreTheValues(rows[..n], i, values[b]);
      assert values[b] == rows[n][i] && values[b] !in front;
      var r :| 0 <= r < n && rows[..n][r][i] == front[a];
      assert rows[r][i] == values[a];
      forall s | 0 <= s <= r ensures rows[s][i] != values[b] {
        assert rows[..n][s] == rows[s];
      }
    }
  }

  function SlotRow(style: Style, group: Group, i: nat): string
    requires Even(group.rows) && |group.rows| > 0 && i < |group.rows[0]|
  {
    style.indent + "    " + HOLE + Decimal(VaryingBefore(group.rows, i + 1)) + ": " + style.describe(Distinct(group.rows, i), |group.rows|)
  }

  function SlotRows(style: Style, group: Group, i: nat): seq<string>
    requires Even(group.rows) && |group.rows| > 0 && i <= |group.rows[0]|
    decreases |group.rows[0]| - i
  {
    if i == |group.rows[0]| then []
    else (if Varies(group.rows, i) then [SlotRow(style, group, i)] else []) + SlotRows(style, group, i + 1)
  }

  function GroupRows(style: Style, group: Group): seq<string>
    requires Even(group.rows)
  {
    if |group.rows| == 0 then [] else [HeadRow(style, group)] + SlotRows(style, group, 0)
  }

  /** The loop over the rows that skips the values seen before. */
  method CollectDistinct(rows: seq<seq<string>>, i: nat) returns (values: seq<string>)
    requires Even(rows) && |rows| > 0 && i < |rows[0]|
    ensures values == Distinct(rows, i)
  {
    var seen: set<string> := {};
    values := [];
    for r := 0 to |rows|
      invariant seen == set v | v in values
      invariant Even(rows[..r]) && values == Distinct(rows[..r], i)
    {
      assert rows[..r + 1][..r] == rows[..r];
      if rows[r][i] !in seen {
        seen := seen + {rows[r][i]};
        values := values + [rows[r][i]];
      }
    }
    assert rows[..|rows|] == rows;
  }

  /** The values are those of the slot, and none comes twice. */
  lemma {:induction false} DistinctAreTheValues(rows: seq<seq<string>>, i: nat, v: string)
    requires Even(rows) && |rows| > 0 && i < |rows[0]|
    ensures v in Distinct(rows, i) <==> exists r :: 0 <= r < |rows| && rows[r][i] == v
    ensures forall a, b :: 0 <= a < b < |Distinct(rows, i)| ==> Distinct(rows, i)[a] != Distinct(rows, i)[b]
    decreases |rows|
  {
    var n := |rows| - 1;
    if n > 0 {
      DistinctAreTheValues(rows[..n], i, v);
      assert forall r :: 0 <= r < n ==> rows[..n][r] == rows[r];
      if v in Distinct(rows[..n], i) {
        var r :| 0 <= r < |rows[..n]| && rows[..n][r][i] == v;
        assert rows[r][i] == v;
      }
    } else {
      assert rows[..0] == [];
    }
  }

  method RenderTemplateGroup(style: Style, group: Group) returns (rows: seq<string>)
    requires Even(group.rows)
    ensures rows == GroupRows(style, group)
  {
    hide Varies, Distinct, HeadText, SpanText, Decimal, TrimSpace, CountSuffix;
    if |group.rows| == 0 {
      return [];
    }
    var head := RenderHead(group);
    var span := RenderLineSet(group.lines);
    var line := style.indent + Padded(span) + " " + TrimSpace(head);
    assert line + "" == line;
    rows := [line + CountSuffix(|group.rows|)];
    var count := 0;
    for i := 0 to |group.rows[0]|
      invariant count == VaryingBefore(group.rows, i)
      invariant rows + SlotRows(style, group, i) == GroupRows(style, group)
    {
      var varies := SlotVaries(group.rows, i);
      if varies {
        count := count + 1;
        var values := CollectDistinct(group.rows, i);
        Regroup3(rows, [SlotRow(style, group, i)], SlotRows(style, group, i + 1));
        rows := rows + [style.indent + "    " + HOLE + Decimal(count) + ": " + style.describe(values, |group.rows|)];
      } else {
        EmptyConcat([], SlotRows(style, group, i + 1));
      }
    }
    assert rows + [] == rows;
  }

  // ----- What the rows show -----

  /** The groups, one after the other. */
  function AllRows(style: Style, groups: seq<Group>): seq<string>
    requires forall g :: 0 <= g < |groups| ==> Even(groups[g].rows)
  {
    if |groups| == 0 then [] else AllRows(style, groups[..|groups| - 1]) + GroupRows(style, groups[|groups| - 1])
  }

  lemma {:induction false} EveryGroupHasItsRow(style: Style, groups: seq<Group>, g: nat)
    requires forall g :: 0 <= g < |groups| ==> Even(groups[g].rows)
    requires g < |groups| && |groups[g].rows| > 0
    ensures HeadRow(style, groups[g]) in AllRows(style, groups)
    decreases |groups|
  {
    hide HeadRow, SlotRows;
    var n := |groups| - 1;
    if g < n {
      EveryGroupHasItsRow(style, groups[..n], g);
    } else {
      assert GroupRows(style, groups[n])[0] == HeadRow(style, groups[n]);
    }
  }

  lemma {:induction false} NoSlotRows(style: Style, group: Group, i: nat)
    requires |group.rows| == 1 && i <= |group.rows[0]|
    ensures SlotRows(style, group, i) == []
    decreases |group.rows[0]| - i
  {
    if i < |group.rows[0]| {
      NoSlotRows(style, group, i + 1);
      assert !Varies(group.rows, i);
    }
  }

  /** A group of one is a single row, and the row ends in its line, without a count. */
  lemma {:induction false} SingletonRow(style: Style, scanner: Scanner, lines: seq<string>, firstLine: nat, groups: seq<Group>, g: nat)
    requires IsGroupingOf(scanner, lines, firstLine, |lines|, groups) && g < |groups| && |groups[g].rows| == 1
    ensures |groups[g].lines| == 1 && firstLine <= groups[g].lines[0] < firstLine + |lines|
    ensures var body := Body(scanner, lines[groups[g].lines[0] - firstLine]);
            StrayMarks(scanner, body) == 0 ==>
              GroupRows(style, groups[g]) == [style.indent + Padded(SpanText(groups[g].lines)) + " " + body]
  {
    hide IsGroupingOf, SpanText, StrayMarks, HeadText, TrimSpace;
    SingletonsAreVerbatim(scanner, lines, firstLine, groups, g);
    var line := lines[groups[g].lines[0] - firstLine];
    NoSlotRows(style, groups[g], 0);
    TrimmedStaysTrimmed(scanner.unprefixed(line));
    var row := style.indent + Padded(SpanText(groups[g].lines)) + " " + Body(scanner, line);
    assert row + "" == row;
  }

  /** A byte that is no part of a character is shown as the replacement character when its line is cut. */
  lemma {:induction false} InvalidByteIsReplaced(s: string, n: nat)
    requires s != "" && RuneLength(s) == 0
    ensures FirstRunes(s, n + 1) == "\U{EF}\U{BF}\U{BD}" + FirstRunes(s[1..], n) && RuneCount(s) == 1 + RuneCount(s[1..])
  {
  }

  /** The head row: the span, at least thirteen wide, what the group looks like, and how many lines it has if not one. */
  lemma {:induction false} HeadRowSays(style: Style, group: Group) returns (span: string)
    requires |group.rows| > 0
    requires Even(group.rows)
    ensures |GroupRows(style, group)| > 0
    ensures GroupRows(style, group)[0]
         == style.indent + span + " " + TrimSpace(HeadText(group))
            + (if |group.rows| == 1 then "" else "  \U{C3}\U{97}" + Decimal(|group.rows|))
    ensures SpanText(group.lines) <= span && |span| == Max(13, |SpanText(group.lines)|)
    ensures forall i :: |SpanText(group.lines)| <= i < |span| ==> span[i] == ' '
  {
    hide SpanText, HeadText, TrimSpace, Decimal;
    span := Padded(SpanText(group.lines));
    AllSpaces(Max(0, 13 - |SpanText(group.lines)|));
  }

  lemma {:induction false} AllSpaces(n: nat)
    ensures |Spaces(n)| == n && forall i :: 0 <= i < n ==> Spaces(n)[i] == ' '
  {
    if n > 0 {
      AllSpaces(n - 1);
    }
  }

  lemma {:induction false} LabelAt(rows: seq<seq<string>>, from: nat, i: nat)
    requires |rows| > 0 && from <= i < |rows[0]|
    ensures |LabelsFrom(rows, from)| == |rows[0]| - from && LabelsFrom(rows, from)[i - from] == Label(rows, i)
    decreases |rows[0]| - from
  {
    if from < i {
      LabelAt(rows, from + 1, i);
    } else {
      LabelsCount(rows, from);
    }
  }

  lemma {:induction false} LabelsCount(rows: seq<seq<string>>, from: nat)
    requires |rows| > 0 && from <= |rows[0]|
    ensures |LabelsFrom(rows, from)| == |rows[0]| - from
    decreases |rows[0]| - from
  {
    if from < |rows[0]| {
      LabelsCount(rows, from + 1);
    }
  }

  lemma {:induction false} CountVarying(rows: seq<seq<string>>, n: nat, m: nat)
    requires n <= m
    ensures VaryingBefore(rows, n) <= VaryingBefore(rows, m)
  {
    if n < m {
      CountVarying(rows, n, m - 1);
    }
  }

  /**
   Row k behind the head row is for the k-th slot that varies, named by the same numbered hole as in the head, and gives its
   values; a slot that does not vary shows in the head as its value and has no row.
   */
  lemma {:induction false} SlotRowsNameTheirHoles(style: Style, group: Group, i: nat)
    requires Even(group.rows) && |group.rows| > 0 && i < |group.rows[0]|
    ensures var rows, labels := GroupRows(style, group), LabelsFrom(group.rows, 0);
            && |labels| == |group.rows[0]|
            && if forall r :: 0 <= r < |group.rows| ==> group.rows[r][i] == group.rows[0][i] then labels[i] == group.rows[0][i]
               else
                 var k := VaryingBefore(group.rows, i);
                 && labels[i] == "\U{E2}\U{96}\U{AA}" + Decimal(k + 1)
                 && k + 1 < |rows|
                 && rows[k + 1] == style.indent + "    " + labels[i] + ": " + style.describe(Distinct(group.rows, i), |group.rows|)
  {
    hide Decimal, Distinct, HeadRow, SlotRows, LabelsFrom, VaryingBefore;
    LabelAt(group.rows, 0, i);
    if Varies(group.rows, i) {
      RowOfSlot(style, group, 0, i);
      NoneBefore(group.rows, i);
      Regroup3(style.indent + "    ", HOLE, Decimal(VaryingBefore(group.rows, i + 1)));
    }
  }

  lemma {:induction false} NoneBefore(rows: seq<seq<string>>, i: nat)
    requires Varies(rows, i)
    ensures VaryingBefore(rows, 0) == 0 && VaryingBefore(rows, i + 1) == VaryingBefore(rows, i) + 1
  {
    hide Varies;
  }

  lemma {:induction false} RowOfSlot(style: Style, group: Group, from: nat, i: nat)
    requires Even(group.rows) && |group.rows| > 0 && from <= i < |group.rows[0]| && Varies(group.rows, i)
    ensures var k := VaryingBefore(group.rows, i) - VaryingBefore(group.rows, from);
            0 <= k < |SlotRows(style, group, from)| && SlotRows(style, group, from)[k] == SlotRow(style, group, i)
    decreases i - from
  {
    hide Varies, SlotRow;
    CountVarying(group.rows, from, i);
    if from < i {
      RowOfSlot(style, group, from + 1, i);
      CountVarying(group.rows, from + 1, i);
    }
  }

  /** Behind the head row there are as many rows as slots that vary. */
  lemma {:induction false} RowsAreHeadAndSlots(style: Style, group: Group)
    requires Even(group.rows) && |group.rows| > 0
    ensures |GroupRows(style, group)| == 1 + VaryingBefore(group.rows, |group.rows[0]|)
  {
    SlotRowsCount(style, group, 0);
  }

  lemma {:induction false} SlotRowsCount(style: Style, group: Group, from: nat)
    requires Even(group.rows) && |group.rows| > 0 && from <= |group.rows[0]|
    ensures |SlotRows(style, group, from)| == VaryingBefore(group.rows, |group.rows[0]|) - VaryingBefore(group.rows, from)
    decreases |group.rows[0]| - from
  {
    hide Varies, SlotRow;
    if from < |group.rows[0]| {
      SlotRowsCount(style, group, from + 1);
    }
  }

  // ----- Rows are lines -----

  /** What the parameters do not put into a row: a line feed. */
  ghost predicate AddsNoLines(scanner: Scanner, style: Style) {
    && LfFree(style.indent)
    && (forall line :: LfFree(line) ==> LfFree(scanner.unprefixed(line)))
    && (forall values, n :: AllLfFree(values) ==> LfFree(style.describe(values, n)))
  }

  lemma {:induction false} TemplateLfFree(scanner: Scanner, body: string)
    requires LfFree(body)
    ensures var (template, slots) := Templatize(scanner, body); LfFree(template) && AllLfFree(slots)
    decreases |body|
  {
    if |body| > 0 {
      var n := TokenLength(scanner, body);
      var step := if n > 0 then n else 1;
      assert forall c :: c in body[step..] ==> c in body;
      assert forall c :: c in body[..step] ==> c in body;
      assert body[0] in body;
      TemplateLfFree(scanner, body[step..]);
    }
  }

  lemma {:induction false} SlotPartsLfFree(template: string)
    requires LfFree(template)
    ensures AllLfFree(SlotParts(template))
  {
    if |template| > 0 {
      assert forall c :: c in template[1..] ==> c in template;
      assert template[0] in template;
      SlotPartsLfFree(template[1..]);
    }
  }

  lemma {:induction false} FilledLfFree(parts: seq<string>, values: seq<string>)
    requires |parts| > 0 && AllLfFree(parts) && AllLfFree(values)
    ensures LfFree(Filled(parts, values))
  {
    if |parts| > 1 {
      FilledLfFree(parts[1..], MoreValues(values));
    }
  }

  lemma {:induction false} LabelsLfFree(rows: seq<seq<string>>, i: nat)
    requires |rows| > 0 && i <= |rows[0]| && AllLfFree(rows[0])
    ensures AllLfFree(LabelsFrom(rows, i))
    decreases |rows[0]| - i
  {
    hide Varies, Decimal;
    if i < |rows[0]| {
      LabelsLfFree(rows, i + 1);
      DigitsAreLfFree(Decimal(VaryingBefore(rows, i + 1)));
    }
  }

  lemma {:induction false} RunsTextLfFree(runs: seq<Run>)
    ensures LfFree(RunsText(runs))
  {
    if |runs| > 0 {
      DigitsAreLfFree(Decimal(runs[0].lo));
      DigitsAreLfFree(Decimal(runs[0].hi));
      RunsTextLfFree(runs[1..]);
    }
  }

  lemma {:induction false} SpanLfFree(ns: seq<nat>)
    ensures LfFree(Padded(SpanText(ns)))
  {
    hide RunsText, Runs, Listed, Overflow, SortInts;
    var runs := Runs(SortInts(ns));
    RunsTextLfFree(Listed(runs));
    if Overflow(runs) > 0 {
      DigitsAreLfFree(Decimal(Overflow(runs)));
    }
    SpacesLfFree(Max(0, 13 - |SpanText(ns)|));
  }

  lemma {:induction false} SpacesLfFree(n: nat)
    ensures LfFree(Spaces(n))
  {
    if n > 0 {
      SpacesLfFree(n - 1);
    }
  }

  /** The captured values and the template hold no line feed. */
  ghost predicate HoldsNoLf(group: Group) {
    LfFree(group.template) && forall r :: 0 <= r < |group.rows| ==> AllLfFree(group.rows[r])
  }

  lemma {:induction false} DistinctLfFree(rows: seq<seq<string>>, i: nat)
    requires Even(rows) && (|rows| > 0 ==> i < |rows[0]|) && forall r :: 0 <= r < |rows| ==> AllLfFree(rows[r])
    ensures AllLfFree(Distinct(rows, i))
  {
    if |rows| > 0 {
      DistinctLfFree(rows[..|rows| - 1], i);
    }
  }

  lemma {:induction false} HeadRowLfFree(style: Style, group: Group)
    requires |group.rows| > 0 && HoldsNoLf(group) && LfFree(style.indent)
    ensures LfFree(HeadRow(style, group))
  {
    hide Padded, SpanText, TrimSpace, Filled, SlotParts, LabelsFrom, Decimal;
    SpanLfFree(group.lines);
    SlotPartsLfFree(group.template);
    LabelsLfFree(group.rows, 0);
    FilledLfFree(SlotParts(group.template), LabelsFrom(group.rows, 0));
    TrimKeepsLfFree(HeadText(group));
    DigitsAreLfFree(Decimal(|group.rows|));
  }

  lemma {:induction false} SlotRowsLfFree(scanner: Scanner, style: Style, group: Group, i: nat)
    requires Even(group.rows) && |group.rows| > 0 && i <= |group.rows[0]| && HoldsNoLf(group) && AddsNoLines(scanner, style)
    ensures AllLfFree(SlotRows(style, group, i))
    decreases |group.rows[0]| - i
  {
    hide Distinct, Decimal, Varies;
    if i < |group.rows[0]| {
      SlotRowsLfFree(scanner, style, group, i + 1);
      DistinctLfFree(group.rows, i);
      DigitsAreLfFree(Decimal(VaryingBefore(group.rows, i + 1)));
    }
  }

  lemma {:induction false} AllRowsLfFree(scanner: Scanner, style: Style, groups: seq<Group>)
    requires forall g :: 0 <= g < |groups| ==> Even(groups[g].rows) && HoldsNoLf(groups[g])
    requires AddsNoLines(scanner, style)
    ensures AllLfFree(AllRows(style, groups))
  {
    hide HeadRow, SlotRows, HoldsNoLf;
    if |groups| > 0 {
      var n := |groups| - 1;
      AllRowsLfFree(scanner, style, groups[..n]);
      if |groups[n].rows| > 0 {
        HeadRowLfFree(style, groups[n]);
        SlotRowsLfFree(scanner, style, groups[n], 0);
      }
    }
  }

  /** Groups of lines are even and hold no line feed. */
  lemma {:induction false} GroupsAreTame(scanner: Scanner, style: Style, lines: seq<string>, firstLine: nat, groups: seq<Group>, g: nat)
    requires IsGroupingOf(scanner, lines, firstLine, |lines|, groups) && g < |groups|
    requires AllLfFree(lines) && AddsNoLines(scanner, style)
    ensures Even(groups[g].rows) && |groups[g].rows| > 0 && HoldsNoLf(groups[g])
  {
    hide Templatize, Body, Separate, Covered, Below, Ascending;
    var group := groups[g];
    assert Sound(scanner, lines, firstLine, group);
    forall r | 0 <= r < |group.rows| ensures LfFree(group.template) && AllLfFree(group.rows[r]) {
      assert HoldsRow(scanner, lines, firstLine, group, r);
      var line := lines[group.lines[r] - firstLine];
      BodyLfFree(scanner, style, line);
      TemplateLfFree(scanner, Body(scanner, line));
    }
    assert HoldsRow(scanner, lines, firstLine, group, 0);
  }

  lemma {:induction false} BodyLfFree(scanner: Scanner, style: Style, line: string)
    requires LfFree(line) && AddsNoLines(scanner, style)
    ensures LfFree(Body(scanner, line))
  {
    TrimKeepsLfFree(scanner.unprefixed(line));
  }
}
