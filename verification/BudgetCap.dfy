/** A view within a byte budget: whole lines of head and tail around a marker at the seam.  Characters are bytes. */
module BudgetCap {
  import opened Text
  import opened Utf8

  /** A horizontal ellipsis, in UTF-8. */
  const ELLIPSIS := "\U{E2}\U{80}\U{A6}"

  function SeamMarker(dropped: nat): string {
    "[" + ELLIPSIS + Decimal(dropped) + " lines elided" + ELLIPSIS + "]"
  }

  const SEAM_INLINE_MARKER := "[" + ELLIPSIS + "middle of line elided" + ELLIPSIS + "]"

  function SeamHybridMarker(later: nat): string {
    "[" + ELLIPSIS + "middle of line; " + Decimal(later) + " later lines elided" + ELLIPSIS + "]"
  }

  /** What the length of a seam marker is taken to be. */
  function MarkerLength(dropped: nat): nat {
    21 + |Decimal(dropped)|
  }

  /** Division as Go does it, toward zero. */
  function Half(budget: int): (half: int)
    ensures budget >= 0 ==> 2 * half <= budget <= 2 * half + 1
    ensures budget < 0 ==> 2 * half - 1 <= budget <= 2 * half
  {
    if budget >= 0 then budget / 2 else -((-budget) / 2)
  }

  // ----- How many lines fit -----

  /** Lines from the head, while they fit half the budget. */
  function HeadEnd(lines: seq<string>, half: int, h: nat): (end: nat)
    requires h <= |lines|
    ensures h <= end <= |lines|
    decreases |lines| - h
  {
    if h < |lines| && |Join(lines[..h + 1])| <= half then HeadEnd(lines, half, h + 1) else h
  }

  /** The length with lines[..h], a marker, and lines[t..]. */
  function SeamLength(lines: seq<string>, h: nat, t: nat): int
    requires h <= t <= |lines|
  {
    1 + (if h > 0 then |Join(lines[..h])| + 1 else 0) + MarkerLength(t - h) + |Join(lines[t..])|
  }

  /** Lines from the tail, while head, marker and tail fit the budget. */
  function TailStart(lines: seq<string>, h: nat, t: nat, budget: int): (start: nat)
    requires h <= t <= |lines|
    ensures h <= start <= t
    decreases t
  {
    if t > h && SeamLength(lines, h, t - 1) <= budget then TailStart(lines, h, t - 1, budget) else t
  }

  /** No whole line fits: the first one, cut in the middle. */
  function HardCut(first: string, marker: string, budget: int): string {
    var avail := budget - |marker| - 2;
    if avail < 2 then SafeHead(first, budget)
    else
      var h := avail * 4 / 7;
      SafeHead(first, h) + "\n" + marker + "\n" + SafeTail(first, avail - h)
  }

  function Seamed(lines: seq<string>, h: nat, t: nat): string
    requires h <= t <= |lines|
  {
    (if h > 0 then Join(lines[..h]) + "\n" else "") + SeamMarker(t - h) + (if t < |lines| then "\n" + Join(lines[t..]) else "")
  }

  /** The kept text and the number of whole lines omitted from the middle. */
  function Capped(text: string, budget: int): (string, nat) {
    if |text| <= budget then (text, 0)
    else
      var lines := Split(text);
      var h := HeadEnd(lines, Half(budget), 0);
      var t := TailStart(lines, h, |lines|, budget);
      if t - h <= 0 then (text, 0)
      else if h == 0 && t == |lines| then
        if |lines| == 1 then (HardCut(lines[0], SEAM_INLINE_MARKER, budget), 0)
        else (HardCut(lines[0], SeamHybridMarker(|lines| - 1), budget), |lines| - 1)
      else (Seamed(lines, h, t), t - h)
  }

  // ----- Lengths -----

  lemma {:induction false} JoinMore(lines: seq<string>, h: nat)
    requires h < |lines|
    ensures |Join(lines[..h + 1])| == |Join(lines[..h])| + (if h > 0 then 1 else 0) + |lines[h]|
    decreases |lines|
  {
    if h > 0 {
      JoinMore(lines[1..], h - 1);
      assert lines[..h + 1][1..] == lines[1..][..h] && lines[..h][1..] == lines[1..][..h - 1];
      if h == 1 {
        assert lines[..1][1..] == [];
      }
    }
  }

  lemma {:induction false} JoinLess(lines: seq<string>, t: nat)
    requires 0 < t <= |lines|
    ensures |Join(lines[t - 1..])| == |lines[t - 1]| + (if t < |lines| then 1 + |Join(lines[t..])| else 0)
  {
    assert lines[t - 1..][1..] == lines[t..];
  }

  lemma {:induction false} JoinCut(lines: seq<string>, h: nat)
    requires h <= |lines|
    ensures |Join(lines)| == |Join(lines[..h])| + (if 0 < h < |lines| then 1 else 0) + |Join(lines[h..])|
    decreases |lines|
  {
    if h == 0 {
      assert lines[0..] == lines;
    } else if h == |lines| {
      assert lines[..h] == lines;
    } else {
      JoinCut(lines[1..], h - 1);
      assert lines[..h][1..] == lines[1..][..h - 1] && lines[1..][h - 1..] == lines[h..];
      if h == 1 {
        assert lines[..1][1..] == [];
      }
    }
  }

  method FillHead(lines: seq<string>, half: int) returns (headEnd: nat, headLen: nat)
    ensures headEnd == HeadEnd(lines, half, 0) && headLen == |Join(lines[..headEnd])|
  {
    hide Join;
    headEnd, headLen := 0, 0;
    NothingJoined(lines);
    while headEnd < |lines|
      invariant headEnd <= |lines| && headLen == |Join(lines[..headEnd])|
      invariant HeadEnd(lines, half, headEnd) == HeadEnd(lines, half, 0)
    {
      JoinMore(lines, headEnd);
      var add := |lines[headEnd]|;
      if headEnd > 0 {
        add := add + 1;
      }
      if headLen + add > half {
        break;
      }
      headLen := headLen + add;
      headEnd := headEnd + 1;
    }
  }

  lemma {:induction false} NothingJoined(lines: seq<string>)
    ensures |Join(lines[..0])| == 0 && |Join(lines[|lines|..])| == 0
  {
    assert lines[|lines|..] == [];
  }

  method FillTail(lines: seq<string>, headEnd: nat, headLen: nat, budget: int) returns (tailStart: nat)
    requires headEnd <= |lines| && headLen == |Join(lines[..headEnd])|
    ensures tailStart == TailStart(lines, headEnd, |lines|, budget)
  {
    hide Join, Decimal;
    tailStart := |lines|;
    var tailLen, tailCount := 0, 0;
    NothingJoined(lines);
    while tailStart > headEnd
      invariant headEnd <= tailStart <= |lines| && tailLen == |Join(lines[tailStart..])| && tailCount == |lines| - tailStart
      invariant TailStart(lines, headEnd, tailStart, budget) == TailStart(lines, headEnd, |lines|, budget)
    {
      JoinLess(lines, tailStart);
      var newTailLen := tailLen + |lines[tailStart - 1]|;
      if tailCount > 0 {
        newTailLen := newTailLen + 1;
      }
      var overhead := 1;
      if headEnd > 0 {
        overhead := overhead + headLen + 1;
      }
      if overhead + MarkerLength(tailStart - 1 - headEnd) + newTailLen > budget {
        break;
      }
      tailLen := newTailLen;
      tailCount := tailCount + 1;
      tailStart := tailStart - 1;
    }
  }

  method CutFirst(first: string, marker: string, budget: int) returns (cut: string)
    ensures cut == HardCut(first, marker, budget)
  {
    var avail := budget - |marker| - 2;
    if avail < 2 {
      cut := RuneSafeHead(first, budget);
      return;
    }
    var h := avail * 4 / 7;
    var head := RuneSafeHead(first, h);
    var tail := RuneSafeTail(first, avail - h);
    return head + "\n" + marker + "\n" + tail;
  }

  method Cap(text: string, budget: int) returns (kept: string, omitted: nat)
    ensures (kept, omitted) == Capped(text, budget)
  {
    hide Join, Decimal, HardCut;
    if |text| <= budget {
      return text, 0;
    }
    var lines := Split(text);
    var headEnd, headLen := FillHead(lines, Half(budget));
    var tailStart := FillTail(lines, headEnd, headLen, budget);
    var dropped := tailStart - headEnd;
    if dropped <= 0 {
      return text, 0;
    }
    if headEnd == 0 && tailStart == |lines| {
      if |lines| == 1 {
        kept := CutFirst(lines[0], SEAM_INLINE_MARKER, budget);
        return kept, 0;
      }
      kept := CutFirst(lines[0], SeamHybridMarker(|lines| - 1), budget);
      return kept, |lines| - 1;
    }
    kept := "";
    if headEnd > 0 {
      kept := Join(lines[..headEnd]) + "\n";
    }
    kept := kept + SeamMarker(dropped);
    assert kept + "" == kept;
    if tailStart < |lines| {
      kept := kept + ("\n" + Join(lines[tailStart..]));
    }
    assert kept == Seamed(lines, headEnd, tailStart);
    return kept, dropped;
  }

  // ----- The middle always loses something -----

  lemma {:induction false} HeadFits(lines: seq<string>, half: int, h: nat)
    requires h <= |lines| && (h > 0 ==> |Join(lines[..h])| <= half)
    ensures var end := HeadEnd(lines, half, h); end > 0 ==> |Join(lines[..end])| <= half
    decreases |lines| - h
  {
    if h < |lines| && |Join(lines[..h + 1])| <= half {
      HeadFits(lines, half, h + 1);
    }
  }

  lemma {:induction false} TailFits(lines: seq<string>, h: nat, t: nat, budget: int)
    requires h <= t <= |lines| && (t < |lines| ==> SeamLength(lines, h, t) <= budget)
    ensures var start := TailStart(lines, h, t, budget); start < |lines| ==> SeamLength(lines, h, start) <= budget
    decreases t
  {
    if t > h && SeamLength(lines, h, t - 1) <= budget {
      TailFits(lines, h, t - 1, budget);
    }
  }

  lemma {:induction false} AllInHead(lines: seq<string>, budget: int)
    requires |lines| > 0 && |Join(lines)| > budget
    ensures HeadEnd(lines, Half(budget), 0) == |lines| ==> |Join(lines)| == 0 && budget == -1
  {
    HeadFits(lines, Half(budget), 0);
    assert lines[..|lines|] == lines;
  }

  lemma {:induction false} NeverAllInTail(lines: seq<string>, h: nat, budget: int)
    requires h < |lines| && |Join(lines)| > budget
    ensures TailStart(lines, h, |lines|, budget) > h
  {
    hide Decimal, Join;
    TailFits(lines, h, |lines|, budget);
    JoinCut(lines, h);
    NothingJoined(lines);
  }

  lemma {:induction false} EmptyLineInHead()
    ensures HeadEnd([""], Half(-1), 0) == 1
  {
    assert [""][..1] == [""];
  }

  /**
   The branch for a text that needs no cut after all is reached by an over-long text in one case only: the empty text
   with a budget of minus one, half of which is zero.
   */
  lemma {:induction false} SomethingIsDropped(text: string, budget: int)
    requires |text| > budget
    ensures var lines := Split(text);
            var h := HeadEnd(lines, Half(budget), 0);
            TailStart(lines, h, |lines|, budget) - h <= 0 <==> text == "" && budget == -1
  {
    hide HeadEnd, TailStart, Half, Join;
    var lines := Split(text);
    var h := HeadEnd(lines, Half(budget), 0);
    JoinSplit(text);
    AllInHead(lines, budget);
    EmptyLineInHead();
    if h < |lines| {
      NeverAllInTail(lines, h, budget);
    }
  }

  // ----- The budget is kept -----

  lemma {:induction false} DigitsGrow(m: nat, n: nat)
    requires m <= n
    ensures |Decimal(m)| <= |Decimal(n)|
    decreases n
  {
    if m >= 10 {
      DigitsGrow(m / 10, n / 10);
    }
  }

  lemma {:induction false} MarkerIsThatLong(dropped: nat)
    ensures |SeamMarker(dropped)| == MarkerLength(dropped)
  {
    hide Decimal;
    assert |ELLIPSIS| == 3 && |" lines elided"| == 13;
  }

  lemma {:induction false} SeamedLength(lines: seq<string>, h: nat, t: nat)
    requires h <= t <= |lines|
    ensures t < |lines| ==> |Seamed(lines, h, t)| == SeamLength(lines, h, t)
    ensures t == |lines| ==> |Seamed(lines, h, t)| == SeamLength(lines, h, t) - 1
  {
    hide Join, Decimal;
    MarkerIsThatLong(t - h);
    NothingJoined(lines);
  }

  lemma {:induction false} HardCutLength(first: string, marker: string, budget: int)
    requires budget >= 0
    ensures |HardCut(first, marker, budget)| <= budget
  {
    hide SafeHead, SafeTail;
    var avail := budget - |marker| - 2;
    HeadIsSafe(first, budget);
    HeadIsSafe(first, avail * 4 / 7);
    TailIsSafe(first, avail - avail * 4 / 7);
  }

  lemma {:induction false} SeamKeepsBudget(lines: seq<string>, budget: int)
    requires budget >= 2 * (22 + |Decimal(|lines|)|)
    ensures var h := HeadEnd(lines, Half(budget), 0);
            var t := TailStart(lines, h, |lines|, budget);
            h > 0 || t < |lines| ==> |Seamed(lines, h, t)| <= budget
  {
    hide Join, Decimal, Seamed;
    var h := HeadEnd(lines, Half(budget), 0);
    var t := TailStart(lines, h, |lines|, budget);
    HeadFits(lines, Half(budget), 0);
    NothingJoined(lines);
    TailFits(lines, h, |lines|, budget);
    SeamedLength(lines, h, t);
    DigitsGrow(t - h, |lines|);
  }

  /** Every view fits a budget that has room for two markers. */
  lemma {:induction false} BudgetIsKept(text: string, budget: int)
    requires budget >= 2 * (22 + |Decimal(|Split(text)|)|)
    ensures |Capped(text, budget).0| <= budget
  {
    hide Decimal, HardCut, Seamed, HeadEnd, TailStart;
    var lines := Split(text);
    if |text| > budget {
      SomethingIsDropped(text, budget);
      HardCutLength(lines[0], SEAM_INLINE_MARKER, budget);
      HardCutLength(lines[0], SeamHybridMarker(|lines| - 1), budget);
      SeamKeepsBudget(lines, budget);
    }
  }

  // ----- What is kept -----

  lemma {:induction false} JoinTwo(a: seq<string>, b: seq<string>)
    requires |a| > 0 && |b| > 0
    ensures Join(a + b) == Join(a) + "\n" + Join(b)
  {
    TailOfConcat(a, b);
    if |a| == 1 {
      EmptyConcat(a[1..], b);
    } else {
      JoinTwo(a[1..], b);
      Regroup3(a[0] + "\n", Join(a[1..]) + "\n", Join(b));
      Regroup3(a[0] + "\n", Join(a[1..]), "\n");
    }
  }

  lemma {:induction false} SeamedIsJoined(lines: seq<string>, h: nat, t: nat)
    requires h <= t <= |lines| && (h > 0 || t < |lines|)
    ensures Seamed(lines, h, t) == Join(lines[..h] + [SeamMarker(t - h)] + lines[t..])
  {
    hide SeamMarker;
    var marker := SeamMarker(t - h);
    assert Join([marker]) == marker;
    if t < |lines| {
      JoinTwo([marker], lines[t..]);
    } else {
      assert [marker] + lines[t..] == [marker];
      assert marker + "" == marker;
    }
    Regroup3(lines[..h], [marker], lines[t..]);
    if h > 0 {
      JoinTwo(lines[..h], [marker] + lines[t..]);
      Regroup3(Join(lines[..h]) + "\n", marker, if t < |lines| then "\n" + Join(lines[t..]) else "");
      Regroup3(marker, "\n", Join(lines[t..]));
    } else {
      EmptyConcat(lines[..h], [marker] + lines[t..]);
      Regroup3(marker, "\n", Join(lines[t..]));
      EmptyConcat("", marker);
    }
  }

  lemma {:induction false} MarkersAreLines(n: nat)
    ensures LfFree(SeamMarker(n)) && LfFree(SEAM_INLINE_MARKER) && LfFree(SeamHybridMarker(n))
  {
    DigitsAreLfFree(Decimal(n));
  }

  /** Neither the first line fits half the budget, nor the last line the budget beside a marker. */
  predicate NoLineFits(lines: seq<string>, budget: int)
    requires |lines| > 0
  {
    |lines[0]| > Half(budget) && |lines[|lines| - 1]| + 1 + MarkerLength(|lines| - 1) > budget
  }

  /** What labels the cut of a first line. */
  function CutMarker(lines: seq<string>): string
    requires |lines| > 0
  {
    if |lines| == 1 then SEAM_INLINE_MARKER else SeamHybridMarker(|lines| - 1)
  }

  /** What a cut has for its two parts, beside the marker and two line feeds. */
  function Room(lines: seq<string>, budget: int): int
    requires |lines| > 0
  {
    budget - |CutMarker(lines)| - 2
  }

  /**
   Line for line: first lines, a marker that counts the lines that are missing, and last lines.  The first lines are as
   many as fit half the budget, the last ones as many as then fit the budget beside the marker.
   */
  ghost predicate KeepsWholeLines(view: string, dropped: nat, lines: seq<string>, budget: int) {
    exists h, t :: 0 <= h < t <= |lines| && (h > 0 || t < |lines|) && h + dropped + (|lines| - t) == |lines|
      && Split(view) == lines[..h] + [SeamMarker(dropped)] + lines[t..]
      && IsGreedy(lines, h, t, budget)
  }

  /** These first lines fit half the budget and one more does not; these last lines fit beside them, and one more does not. */
  ghost predicate IsGreedy(lines: seq<string>, h: nat, t: nat, budget: int)
    requires h < t <= |lines|
  {
    && (h > 0 ==> |Join(lines[..h])| <= Half(budget)) && |Join(lines[..h + 1])| > Half(budget)
    && (t < |lines| ==> |Join(lines[..h] + [SeamMarker(t - h)] + lines[t..])| <= budget)
    && |Join(lines[..h] + [SeamMarker(t - 1 - h)] + lines[t - 1..])| > budget
  }

  /** Three lines: the front of the first line, four parts in seven, a marker, and its end; or its front alone. */
  ghost predicate KeepsFirstLine(view: string, dropped: nat, lines: seq<string>, budget: int)
    requires |lines| > 0
  {
    var room := Room(lines, budget);
    && dropped == |lines| - 1
    && if room < 2 then view == SafeHead(lines[0], budget)
       else Split(view) == [SafeHead(lines[0], room * 4 / 7), CutMarker(lines), SafeTail(lines[0], room - room * 4 / 7)]
  }

  lemma {:induction false} FirstAndLast(lines: seq<string>, budget: int)
    requires |lines| > 0
    ensures var h := HeadEnd(lines, Half(budget), 0);
            && (h == 0 <==> |lines[0]| > Half(budget))
            && (h == 0 ==> (TailStart(lines, 0, |lines|, budget) == |lines|
                            <==> |lines[|lines| - 1]| + 1 + MarkerLength(|lines| - 1) > budget))
  {
    hide Join, Decimal;
    NothingJoined(lines);
    JoinMore(lines, 0);
    JoinLess(lines, |lines|);
    assert HeadEnd(lines, Half(budget), 0) >= if |lines[0]| > Half(budget) then 0 else 1;
  }

  lemma {:induction false} CutSplits(lines: seq<string>, budget: int)
    requires |lines| > 0 && AllLfFree(lines)
    ensures KeepsFirstLine(HardCut(lines[0], CutMarker(lines), budget), |lines| - 1, lines, budget)
  {
    hide SafeHead, SafeTail, Split, SeamHybridMarker;
    var room, marker := Room(lines, budget), CutMarker(lines);
    var head, tail := SafeHead(lines[0], room * 4 / 7), SafeTail(lines[0], room - room * 4 / 7);
    HeadIsSafe(lines[0], room * 4 / 7);
    TailIsSafe(lines[0], room - room * 4 / 7);
    MarkersAreLines(|lines| - 1);
    assert LfFree(head) && LfFree(tail);
    SplitLfFree(tail);
    SplitPrepend(marker, tail);
    SplitPrepend(head, marker + "\n" + tail);
    Regroup4(head + "\n", marker, "\n", tail);
    Regroup3(marker, "\n", tail);
    assert [head] + ([marker] + [tail]) == [head, marker, tail];
  }

  lemma {:induction false} SeamSplits(lines: seq<string>, h: nat, t: nat)
    requires h < t <= |lines| && (h > 0 || t < |lines|) && AllLfFree(lines)
    ensures Split(Seamed(lines, h, t)) == lines[..h] + [SeamMarker(t - h)] + lines[t..]
  {
    hide Join, Split, SeamMarker, Seamed;
    SeamedIsJoined(lines, h, t);
    MarkersAreLines(t - h);
    SplitJoin(lines[..h] + [SeamMarker(t - h)] + lines[t..]);
  }

  lemma {:induction false} HeadIsGreedy(lines: seq<string>, half: int, h: nat)
    requires h <= |lines|
    ensures var end := HeadEnd(lines, half, h); end < |lines| ==> |Join(lines[..end + 1])| > half
    decreases |lines| - h
  {
    hide Join;
    if h < |lines| && |Join(lines[..h + 1])| <= half {
      HeadIsGreedy(lines, half, h + 1);
    }
  }

  lemma {:induction false} TailIsGreedy(lines: seq<string>, h: nat, t: nat, budget: int)
    requires h <= t <= |lines|
    ensures var start := TailStart(lines, h, t, budget); start > h ==> SeamLength(lines, h, start - 1) > budget
    decreases t
  {
    hide SeamLength;
    if t > h && SeamLength(lines, h, t - 1) <= budget {
      TailIsGreedy(lines, h, t - 1, budget);
    }
  }

  /** With at least one last line, the length that is computed is that of the lines joined. */
  lemma {:induction false} SeamLengthIsJoined(lines: seq<string>, h: nat, t: nat)
    requires h <= t < |lines|
    ensures |Join(lines[..h] + [SeamMarker(t - h)] + lines[t..])| == SeamLength(lines, h, t)
  {
    hide Join, SeamMarker, Seamed, SeamLength;
    SeamedIsJoined(lines, h, t);
    SeamedLength(lines, h, t);
  }

  lemma {:induction false} CapIsGreedy(lines: seq<string>, budget: int)
    ensures var h := HeadEnd(lines, Half(budget), 0);
            var t := TailStart(lines, h, |lines|, budget);
            h < t ==> IsGreedy(lines, h, t, budget)
  {
    hide Join, SeamMarker, SeamLength, HeadEnd, TailStart, Half;
    var h := HeadEnd(lines, Half(budget), 0);
    var t := TailStart(lines, h, |lines|, budget);
    NothingJoined(lines);
    HeadFits(lines, Half(budget), 0);
    HeadIsGreedy(lines, Half(budget), 0);
    TailFits(lines, h, |lines|, budget);
    TailIsGreedy(lines, h, |lines|, budget);
    if h < t {
      SeamLengthIsJoined(lines, h, t - 1);
      if t < |lines| {
        SeamLengthIsJoined(lines, h, t);
      }
    }
  }

  /** What a cap cuts when it cuts: whole lines, unless neither the first nor the last one fits. */
  lemma {:induction false} CapCuts(text: string, budget: int)
    requires |text| > budget && text != ""
    ensures var (view, dropped), lines := Capped(text, budget), Split(text);
            if NoLineFits(lines, budget) then KeepsFirstLine(view, dropped, lines, budget)
            else KeepsWholeLines(view, dropped, lines, budget)
  {
    hide Decimal, HardCut, Seamed, HeadEnd, TailStart, Split, KeepsFirstLine, IsGreedy, Half;
    var lines := Split(text);
    var h := HeadEnd(lines, Half(budget), 0);
    var t := TailStart(lines, h, |lines|, budget);
    SomethingIsDropped(text, budget);
    FirstAndLast(lines, budget);
    if NoLineFits(lines, budget) {
      CutSplits(lines, budget);
    } else {
      CapIsGreedy(lines, budget);
      SeamSplits(lines, h, t);
    }
  }

  /**
   The view is the text exactly when that is within the budget, or empty.  Otherwise it is, line for line, first lines,
   a marker with the number of lines missing, and last lines; or, when neither the first nor the last line fits, a cut
   of the first line around the marker that says so.
   */
  lemma {:induction false} KeptAndDropped(text: string, budget: int)
    ensures var (view, dropped), lines := Capped(text, budget), Split(text);
            && (view == text && dropped == 0 <==> |text| <= budget || text == "")
            && (|text| > budget && text != "" ==>
                  if NoLineFits(lines, budget) then KeepsFirstLine(view, dropped, lines, budget)
                  else KeepsWholeLines(view, dropped, lines, budget))
  {
    hide Decimal, HardCut, Seamed, HeadEnd, TailStart, Half;
    if |text| > budget {
      if text == "" {
        EmptyStaysEmpty(budget);
      } else {
        CapCuts(text, budget);
        CutIsNotTheText(text, budget);
      }
    }
  }

  lemma {:induction false} EmptyStaysEmpty(budget: int)
    ensures Capped("", budget) == ("", 0)
  {
    hide HeadEnd, TailStart, Half;
    if budget < 0 {
      SomethingIsDropped("", budget);
    }
  }

  lemma {:induction false} CutIsNotTheText(text: string, budget: int)
    requires |text| > budget && text != ""
    ensures Capped(text, budget) != (text, 0)
  {
    hide Decimal, HardCut, Seamed, HeadEnd, TailStart, Half, Split, SafeHead, SafeTail;
    var lines := Split(text);
    CapCuts(text, budget);
    JoinSplit(text);
    if |lines| == 1 {
      HeadIsSafe(text, budget);
    }
  }

  // ----- A cut may have lost nothing -----

  /** The marker that a cut has room for says that the middle of the line is lost, but its two parts are all of it. */
  ghost predicate CutLosesNothing(lines: seq<string>, budget: int)
    requires |lines| > 0
  {
    var room := Room(lines, budget);
    room >= 2 && |SafeHead(lines[0], room * 4 / 7)| + |SafeTail(lines[0], room - room * 4 / 7)| >= |lines[0]|
  }

  /** They are more than all of it: a stretch of the line is shown twice. */
  ghost predicate CutRepeats(lines: seq<string>, budget: int)
    requires |lines| > 0
  {
    var room := Room(lines, budget);
    room >= 2 && |SafeHead(lines[0], room * 4 / 7)| + |SafeTail(lines[0], room - room * 4 / 7)| > |lines[0]|
  }

  /** A place where a character may begin, that a head of this room and the tail beside it both reach. */
  predicate Meets(line: string, room: nat, k: nat) {
    k <= |line| && |line| - (room - room * 4 / 7) <= k <= room * 4 / 7 && Boundary(line, k)
  }

  ghost predicate IsAscii(s: string) {
    forall i :: 0 <= i < |s| ==> s[i] <= '\U{7F}'
  }

  /**
   A cut has lost nothing if and only if its two parts reach one boundary of the line, and repeats something if and only
   if they reach two.
   */
  lemma {:induction false} CutLosesUnlessMet(lines: seq<string>, budget: int)
    requires |lines| > 0
    ensures CutLosesNothing(lines, budget) <==> Room(lines, budget) >= 2 && exists k: nat :: Meets(lines[0], Room(lines, budget), k)
    ensures CutRepeats(lines, budget) <==> Room(lines, budget) >= 2 && exists i: nat, j: nat ::
              i < j && Meets(lines[0], Room(lines, budget), i) && Meets(lines[0], Room(lines, budget), j)
  {
    hide SafeHead, SafeTail, CutMarker, Boundary;
    var line, room := lines[0], Room(lines, budget);
    if room >= 2 {
      var h := room * 4 / 7;
      var i, j := |line| - |SafeTail(line, room - h)|, |SafeHead(line, h)|;
      HeadEndsAtBoundary(line, h, 0);
      TailStartsAtBoundary(line, room - h, 0);
      forall k: nat | Meets(line, room, k) ensures i <= k <= j {
        HeadEndsAtBoundary(line, h, k);
        TailStartsAtBoundary(line, room - h, k);
      }
      if i <= j {
        assert Meets(line, room, i) && Meets(line, room, j);
      }
    }
  }

  /** A line of ASCII exactly when it is no longer than the room, or shorter; a line that stands alone never. */
  lemma {:induction false} CutLosesUnlessRoomy(lines: seq<string>, budget: int)
    requires |lines| > 0
    ensures IsAscii(lines[0]) ==>
              && (CutLosesNothing(lines, budget) <==> Room(lines, budget) >= 2 && |lines[0]| <= Room(lines, budget))
              && (CutRepeats(lines, budget) <==> Room(lines, budget) >= 2 && 0 < |lines[0]| < Room(lines, budget))
    ensures CutLosesNothing(lines, budget) ==> |lines[0]| <= Room(lines, budget)
    ensures |lines| == 1 && |lines[0]| > budget ==> !CutLosesNothing(lines, budget)
  {
    hide SafeHead, SafeTail, CutMarker;
    var line, room := lines[0], Room(lines, budget);
    if room >= 2 {
      var h := room * 4 / 7;
      HeadEndsAtBoundary(line, h, Min(h, |line|));
      TailStartsAtBoundary(line, room - h, Max(0, |line| - (room - h)));
      if IsAscii(line) {
        assert Boundary(line, Min(h, |line|)) && Boundary(line, Max(0, |line| - (room - h)));
      }
    }
  }

  /**
   The cases there are, with a budget of 200 and a second line of 200 bytes: a first line of 154 bytes is shown whole, a
   shorter one of 101 bytes in part twice, and the marker says of both that their middle is elided.
   */
  lemma {:induction false} ShortLineIsRepeated(first: string, last: string)
    requires IsAscii(first) && LfFree(first) && LfFree(last) && (|first| == 154 || |first| == 101) && |last| == 200
    ensures var lines := [first, last];
            && Split(Join(lines)) == lines && NoLineFits(lines, 200)
            && KeepsFirstLine(Capped(Join(lines), 200).0, 1, lines, 200)
            && CutLosesNothing(lines, 200) && (CutRepeats(lines, 200) <==> |first| == 101)
  {
    hide Split, CutMarker, CutLosesNothing, CutRepeats, Capped, SafeHead, SafeTail;
    var lines := [first, last];
    SplitJoin(lines);
    assert Join(lines) == first + "\n" + last by {
      assert lines[1..] == [last];
    }
    OneLaterLine(lines);
    CapCuts(Join(lines), 200);
    CutLosesUnlessRoomy(lines, 200);
  }

  lemma {:induction false} OneLaterLine(lines: seq<string>)
    requires |lines| == 2
    ensures |CutMarker(lines)| == 44 && MarkerLength(1) == 22
  {
    assert |Decimal(1)| == 1;
    assert |ELLIPSIS| == 3 && |"middle of line; "| == 16 && |" later lines elided"| == 19;
  }

  lemma {:induction false} LastLineIsTaken(lines: seq<string>, budget: int)
    requires |lines| > 0
    requires |lines[|lines| - 1]| + Half(budget) + 23 + |Decimal(|lines|)| <= budget
    ensures var h := HeadEnd(lines, Half(budget), 0);
            h < |lines| ==> TailStart(lines, h, |lines|, budget) < |lines|
  {
    hide Join, Decimal;
    var h, n := HeadEnd(lines, Half(budget), 0), |lines|;
    HeadFits(lines, Half(budget), 0);
    if h < n {
      JoinLess(lines, n);
      DigitsGrow(n - 1 - h, n);
      assert SeamLength(lines, h, n - 1) <= budget;
      assert TailStart(lines, h, n, budget) == TailStart(lines, h, n - 1, budget);
    }
  }

  predicate EndsWith(s: string, suffix: string) {
    |suffix| <= |s| && s[|s| - |suffix|..] == suffix
  }

  lemma {:induction false} EndsAfter(a: string, b: string, suffix: string)
    requires EndsWith(b, suffix)
    ensures EndsWith(a + b, suffix)
  {
    assert (a + b)[|a + b| - |suffix|..] == b[|b| - |suffix|..];
  }

  lemma {:induction false} JoinEndsWithLast(lines: seq<string>)
    requires |lines| > 0
    ensures EndsWith("\n" + Join(lines), "\n" + lines[|lines| - 1])
  {
    if |lines| > 1 {
      JoinEndsWithLast(lines[1..]);
      Regroup3("\n", lines[0], "\n" + Join(lines[1..]));
      Regroup3(lines[0], "\n", Join(lines[1..]));
      EndsAfter("\n" + lines[0], "\n" + Join(lines[1..]), "\n" + lines[|lines| - 1]);
    }
  }

  /** A last line that fits beside half the budget and a marker survives every cut. */
  lemma {:induction false} LastLineSurvives(text: string, budget: int)
    requires |text| > budget >= 0
    requires var lines := Split(text); |lines[|lines| - 1]| + Half(budget) + 23 + |Decimal(|lines|)| <= budget
    ensures var lines := Split(text); EndsWith(Capped(text, budget).0, "\n" + lines[|lines| - 1])
  {
    hide Join, Decimal, HardCut, HeadEnd, TailStart, EndsWith;
    var lines := Split(text);
    var h := HeadEnd(lines, Half(budget), 0);
    var t := TailStart(lines, h, |lines|, budget);
    SomethingIsDropped(text, budget);
    LastLineIsTaken(lines, budget);
    JoinEndsWithLast(lines[t..]);
    EndsAfter((if h > 0 then Join(lines[..h]) + "\n" else "") + SeamMarker(t - h), "\n" + Join(lines[t..]), "\n" + lines[|lines| - 1]);
  }

  // ----- Valid text stays valid -----

  lemma {:induction false} EllipsisIsValid()
    ensures Valid(ELLIPSIS)
  {
    assert RuneLength(ELLIPSIS) == 3 && ELLIPSIS[3..] == "";
  }

  lemma {:induction false} AsciiBetween(a: string, b: string, c: string)
    requires forall s, i :: s in {a, b, c} && 0 <= i < |s| ==> s[i] <= '\U{7F}'
    ensures Valid(a + ELLIPSIS + b + ELLIPSIS + c)
  {
    hide Valid;
    EllipsisIsValid();
    AsciiIsValid(a);
    AsciiIsValid(b);
    AsciiIsValid(c);
    ValidConcat(a, ELLIPSIS);
    ValidConcat(a + ELLIPSIS, b);
    ValidConcat(a + ELLIPSIS + b, ELLIPSIS);
    ValidConcat(a + ELLIPSIS + b + ELLIPSIS, c);
  }

  lemma {:induction false} MarkersAreValid(n: nat)
    ensures Valid(SeamMarker(n)) && Valid(SEAM_INLINE_MARKER) && Valid(SeamHybridMarker(n))
  {
    hide Valid, Decimal;
    var digits := Decimal(n);
    assert forall i :: 0 <= i < |digits| ==> IsDigit(digits[i]);
    AsciiBetween("[", digits + " lines elided", "]");
    AsciiBetween("[", "middle of line elided", "]");
    AsciiBetween("[", "middle of line; " + digits + " later lines elided", "]");
    Regroup3("[" + ELLIPSIS, digits, " lines elided");
    Regroup3("[" + ELLIPSIS, "middle of line; " + digits, " later lines elided");
    Regroup3("[" + ELLIPSIS, "middle of line; ", digits);
  }

  lemma {:induction false} HardCutIsValid(first: string, marker: string, budget: int)
    requires Valid(first) && Valid(marker)
    ensures Valid(HardCut(first, marker, budget))
  {
    hide Valid, SafeHead, SafeTail;
    var avail := budget - |marker| - 2;
    var h := avail * 4 / 7;
    HeadIsSafe(first, budget);
    HeadIsSafe(first, h);
    TailIsSafe(first, avail - h);
    AsciiIsValid("\n");
    ValidConcat(SafeHead(first, h), "\n");
    ValidConcat(SafeHead(first, h) + "\n", marker);
    ValidConcat(SafeHead(first, h) + "\n" + marker, "\n");
    ValidConcat(SafeHead(first, h) + "\n" + marker + "\n", SafeTail(first, avail - h));
  }

  lemma {:induction false} SeamedIsValid(lines: seq<string>, h: nat, t: nat)
    requires h <= t <= |lines| && AllValid(lines)
    ensures Valid(Seamed(lines, h, t))
  {
    hide Valid, Join, SeamMarker;
    MarkersAreValid(t - h);
    assert AllValid(lines[..h]) && AllValid(lines[t..]);
    JoinOfValid(lines[..h]);
    JoinOfValid(lines[t..]);
    AsciiIsValid("\n");
    AsciiIsValid("");
    var head := if h > 0 then Join(lines[..h]) + "\n" else "";
    var tail := if t < |lines| then "\n" + Join(lines[t..]) else "";
    ValidConcat(Join(lines[..h]), "\n");
    ValidConcat("\n", Join(lines[t..]));
    ValidConcat(head, SeamMarker(t - h));
    ValidConcat(head + SeamMarker(t - h), tail);
  }

  /** Whatever the budget, valid UTF-8 stays valid UTF-8. */
  lemma {:induction false} ViewIsValid(text: string, budget: int)
    requires Valid(text)
    ensures Valid(Capped(text, budget).0)
  {
    hide Valid, Decimal, HardCut, Seamed, HeadEnd, TailStart, Join;
    var lines := Split(text);
    var h := HeadEnd(lines, Half(budget), 0);
    var t := TailStart(lines, h, |lines|, budget);
    JoinSplit(text);
    LinesOfValid(lines);
    SeamedIsValid(lines, h, t);
    MarkersAreValid(|lines| - 1);
    HardCutIsValid(lines[0], SEAM_INLINE_MARKER, budget);
    HardCutIsValid(lines[0], SeamHybridMarker(|lines| - 1), budget);
  }
}
