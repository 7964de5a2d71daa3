/**
 The hunks of a unified diff and their text, as unifiedDiff of internal/filetool/diff.go prints them.
 The main result is that the merging loop computes exactly the maximal runs of operations near a change.
 */
module UnifiedDiff {
  import opened Text
  import opened LineDiff

  /** The operations ops[start..end] of one hunk. */
  datatype Interval = Interval(start: nat, end: nat)

  // ----- Merging changes into hunks -----

  predicate IsChange(ops: seq<DiffLine>, i: int) {
    0 <= i < |ops| && ops[i].kind != Keep
  }

  /** Operation p lies within `context` operations of a change. */
  ghost predicate NearChange(ops: seq<DiffLine>, context: nat, p: int) {
    0 <= p < |ops| && exists i :: IsChange(ops, i) && i - context <= p <= i + context
  }

  ghost predicate Covered(hunks: seq<Interval>, p: int) {
    exists k :: 0 <= k < |hunks| && hunks[k].start <= p < hunks[k].end
  }

  /** The intervals are nonempty, in order, and at least one operation apart. */
  predicate Separated(ops: seq<DiffLine>, hunks: seq<Interval>) {
    && (forall k :: 0 <= k < |hunks| ==> hunks[k].start < hunks[k].end <= |ops|)
    && (forall k, l :: 0 <= k < l < |hunks| ==> hunks[k].end < hunks[l].start)
  }

  /** One turn of the merging loop. */
  function AddChange(ops: seq<DiffLine>, context: nat, hunks: seq<Interval>, change: nat): seq<Interval>
    requires change < |ops|
  {
    var start := Max(0, change - context);
    var end := Min(|ops|, change + context + 1);
    if |hunks| > 0 && start <= hunks[|hunks| - 1].end then
      var last := hunks[|hunks| - 1];
      hunks[..|hunks| - 1] + [Interval(last.start, Max(last.end, end))]
    else
      hunks + [Interval(start, end)]
  }

  function HunksUpTo(ops: seq<DiffLine>, context: nat, n: nat): seq<Interval>
    requires n <= |ops|
  {
    if n == 0 then []
    else
      var before := HunksUpTo(ops, context, n - 1);
      if ops[n - 1].kind == Keep then before else AddChange(ops, context, before, n - 1)
  }

  function Hunks(ops: seq<DiffLine>, context: nat): seq<Interval> {
    HunksUpTo(ops, context, |ops|)
  }

  /** As NearChange, for the changes among the first n operations. */
  ghost predicate NearEarlyChange(ops: seq<DiffLine>, context: nat, n: nat, p: int) {
    0 <= p < |ops| && exists i :: 0 <= i < n && IsChange(ops, i) && i - context <= p <= i + context
  }

  ghost predicate HunksInvariant(ops: seq<DiffLine>, context: nat, n: nat, hunks: seq<Interval>) {
    && Separated(ops, hunks)
    && (forall p :: Covered(hunks, p) <==> NearEarlyChange(ops, context, n, p))
    && (|hunks| > 0 ==> BoundsLast(ops, context, n, hunks[|hunks| - 1]))
  }

  /** The last hunk so far ends where the context of the latest change i < n does. */
  ghost predicate BoundsLast(ops: seq<DiffLine>, context: nat, n: nat, last: Interval) {
    exists i :: 0 <= i < n && IsChange(ops, i)
                && last.start <= Max(0, i - context) && last.end == Min(|ops|, i + context + 1)
  }

  lemma {:induction false} NearStep(ops: seq<DiffLine>, context: nat, n: nat, p: int)
    requires n < |ops|
    ensures NearEarlyChange(ops, context, n + 1, p) <==>
            NearEarlyChange(ops, context, n, p)
            || (IsChange(ops, n) && 0 <= p < |ops| && n - context <= p <= n + context)
  {
    if NearEarlyChange(ops, context, n + 1, p) {
      var i :| 0 <= i < n + 1 && IsChange(ops, i) && i - context <= p <= i + context;
      assert i < n || i == n;
    }
  }

  /** Replacing the last interval by one that contains it, or adding one, covers what the new one covers as well. */
  lemma {:induction false} CoversMore(hunks: seq<Interval>, last: Interval, p: int)
    ensures Covered(hunks + [last], p) <==> Covered(hunks, p) || last.start <= p < last.end
  {
    var added := hunks + [last];
    assert added[|hunks|] == last && forall k :: 0 <= k < |hunks| ==> added[k] == hunks[k];
  }

  lemma {:induction false} AddChangeCovers(ops: seq<DiffLine>, context: nat, n: nat, hunks: seq<Interval>, p: int)
    requires IsChange(ops, n) && Separated(ops, hunks)
    requires |hunks| > 0 ==> BoundsLast(ops, context, n, hunks[|hunks| - 1])
    ensures Covered(AddChange(ops, context, hunks, n), p) <==>
            Covered(hunks, p) || (0 <= p < |ops| && n - context <= p <= n + context)
  {
    var start, end := Max(0, n - context), Min(|ops|, n + context + 1);
    if |hunks| > 0 && start <= hunks[|hunks| - 1].end {
      var l := |hunks| - 1;
      assert hunks == hunks[..l] + [hunks[l]];
      CoversMore(hunks[..l], hunks[l], p);
      CoversMore(hunks[..l], Interval(hunks[l].start, Max(hunks[l].end, end)), p);
    } else {
      CoversMore(hunks, Interval(start, end), p);
    }
  }

  lemma {:induction false} AddChangeSeparates(ops: seq<DiffLine>, context: nat, n: nat, hunks: seq<Interval>)
    requires IsChange(ops, n) && Separated(ops, hunks)
    requires |hunks| > 0 ==> BoundsLast(ops, context, n, hunks[|hunks| - 1])
    ensures var added := AddChange(ops, context, hunks, n);
            Separated(ops, added) && |added| > 0 && BoundsLast(ops, context, n + 1, added[|added| - 1])
  {
    var added := AddChange(ops, context, hunks, n);
    var last := added[|added| - 1];
    assert last.start <= Max(0, n - context) && last.end == Min(|ops|, n + context + 1);
    assert forall k :: 0 <= k < |added| - 1 ==> added[k] == hunks[k];
  }

  lemma {:induction false} HunksUpToInvariant(ops: seq<DiffLine>, context: nat, n: nat)
    requires n <= |ops|
    ensures HunksInvariant(ops, context, n, HunksUpTo(ops, context, n))
  {
    if n > 0 {
      var before, hunks := HunksUpTo(ops, context, n - 1), HunksUpTo(ops, context, n);
      HunksUpToInvariant(ops, context, n - 1);
      if IsChange(ops, n - 1) {
        ChangeStep(ops, context, n - 1, before);
      } else {
        KeepStep(ops, context, n - 1, before);
      }
    }
  }

  lemma {:induction false} ChangeStep(ops: seq<DiffLine>, context: nat, n: nat, hunks: seq<Interval>)
    requires IsChange(ops, n) && HunksInvariant(ops, context, n, hunks)
    ensures HunksInvariant(ops, context, n + 1, AddChange(ops, context, hunks, n))
  {
    AddChangeSeparates(ops, context, n, hunks);
    forall p ensures Covered(AddChange(ops, context, hunks, n), p) <==> NearEarlyChange(ops, context, n + 1, p) {
      NearStep(ops, context, n, p);
      AddChangeCovers(ops, context, n, hunks, p);
    }
  }

  lemma {:induction false} KeepStep(ops: seq<DiffLine>, context: nat, n: nat, hunks: seq<Interval>)
    requires n < |ops| && !IsChange(ops, n) && HunksInvariant(ops, context, n, hunks)
    ensures HunksInvariant(ops, context, n + 1, hunks)
  {
    forall p ensures Covered(hunks, p) <==> NearEarlyChange(ops, context, n + 1, p) {
      NearStep(ops, context, n, p);
    }
  }

  /**
   The hunks are the maximal runs of operations near a change: every such operation lies in one, no other
   does, and at least one operation separates each hunk from the next.
   */
  lemma {:induction false} HunksAreTheChangedRuns(ops: seq<DiffLine>, context: nat)
    ensures Separated(ops, Hunks(ops, context))
    ensures forall p :: Covered(Hunks(ops, context), p) <==> NearChange(ops, context, p)
  {
    HunksUpToInvariant(ops, context, |ops|);
    forall p ensures NearChange(ops, context, p) <==> NearEarlyChange(ops, context, |ops|, p) {
    }
  }

  // ----- The text of a diff -----

  function Mark(kind: Kind): char {
    match kind
    case Keep => ' '
    case Delete => '-'
    case Insert => '+'
  }

  function OpLine(op: DiffLine): string {
    [Mark(op.kind)] + op.text
  }

  function OpLines(ops: seq<DiffLine>): (lines: seq<string>)
    ensures |lines| == |ops|
    ensures forall i :: 0 <= i < |ops| ==> lines[i] == OpLine(ops[i])
  {
    if |ops| == 0 then [] else [OpLine(ops[0])] + OpLines(ops[1..])
  }

  /** A start line is one-based, and one less when the hunk has no line on that side. */
  function StartLine(before: nat, count: nat): nat {
    if count == 0 then before else before + 1
  }

  function HunkHeader(oldStart: nat, oldCount: nat, newStart: nat, newCount: nat): string {
    "@@ -" + Decimal(oldStart) + "," + Decimal(oldCount) + " +" + Decimal(newStart) + "," + Decimal(newCount) + " @@"
  }

  predicate InRange(ops: seq<DiffLine>, hunk: Interval) {
    hunk.start <= hunk.end <= |ops|
  }

  function HeaderOf(ops: seq<DiffLine>, hunk: Interval): string
    requires InRange(ops, hunk)
  {
    var oldCount := |OldLines(ops[hunk.start..hunk.end])|;
    var newCount := |NewLines(ops[hunk.start..hunk.end])|;
    HunkHeader(StartLine(|OldLines(ops[..hunk.start])|, oldCount), oldCount,
               StartLine(|NewLines(ops[..hunk.start])|, newCount), newCount)
  }

  function HunkLines(ops: seq<DiffLine>, hunk: Interval): seq<string>
    requires InRange(ops, hunk)
  {
    [HeaderOf(ops, hunk)] + OpLines(ops[hunk.start..hunk.end])
  }

  function BodyLines(ops: seq<DiffLine>, hunks: seq<Interval>): seq<string>
    requires forall k :: 0 <= k < |hunks| ==> InRange(ops, hunks[k])
  {
    if |hunks| == 0 then [] else HunkLines(ops, hunks[0]) + BodyLines(ops, hunks[1..])
  }

  /** splitTextLines: the lines of a text, and whether a line feed ends it. */
  function SplitTextLines(value: string): (result: (seq<string>, bool))
    ensures AllLfFree(result.0)
  {
    var folded := FoldCrlf(value);
    var trailing := |folded| > 0 && folded[|folded| - 1] == '\n';
    var trimmed := if trailing then folded[..|folded| - 1] else folded;
    (if trimmed == "" then [] else Split(trimmed), trailing)
  }

  function FileHeader(from: string, to: string): string {
    ("--- " + from) + "\n" + ("+++ " + to) + "\n"
  }

  function ScriptOf(before: string, after: string): seq<DiffLine> {
    Script(SplitTextLines(before).0, SplitTextLines(after).0)
  }

  /** The text that unifiedDiff returns. */
  function DiffText(from: string, to: string, before: string, after: string, context: int): string {
    if before == after then ""
    else
      var ops := ScriptOf(before, after);
      var hunks := Hunks(ops, Max(context, 0));
      HunksAreTheChangedRuns(ops, Max(context, 0));
      if |hunks| == 0 then "" else FileHeader(from, to) + Unlines(BodyLines(ops, hunks))
  }

  // ----- The methods of the source -----

  lemma {:induction false} ProjectionsSnoc(ops: seq<DiffLine>, i: nat)
    requires i < |ops|
    ensures OldLines(ops[..i + 1]) == OldLines(ops[..i]) + OldPart(ops[i])
    ensures NewLines(ops[..i + 1]) == NewLines(ops[..i]) + NewPart(ops[i])
  {
    assert ops[..i + 1] == ops[..i] + [ops[i]];
    OldLinesConcat(ops[..i], [ops[i]]);
    NewLinesConcat(ops[..i], [ops[i]]);
    assert OldLines([ops[i]]) == OldPart(ops[i]) && NewLines([ops[i]]) == NewPart(ops[i]);
  }

  /** consumedLines. */
  method ConsumedLines(ops: seq<DiffLine>) returns (oldCount: nat, newCount: nat)
    ensures oldCount == |OldLines(ops)| && newCount == |NewLines(ops)|
  {
    oldCount, newCount := 0, 0;
    for i := 0 to |ops|
      invariant oldCount == |OldLines(ops[..i])| && newCount == |NewLines(ops[..i])|
    {
      ProjectionsSnoc(ops, i);
      if ops[i].kind != Insert {
        oldCount := oldCount + 1;
      }
      if ops[i].kind != Delete {
        newCount := newCount + 1;
      }
    }
    assert ops[..|ops|] == ops;
  }

  /** The loop of unifiedDiff that merges the context of neighbouring changes. */
  method MergeHunks(ops: seq<DiffLine>, context: nat) returns (hunks: seq<Interval>)
    ensures hunks == Hunks(ops, context)
    ensures Separated(ops, hunks) && forall p :: Covered(hunks, p) <==> NearChange(ops, context, p)
  {
    hunks := [];
    for change := 0 to |ops|
      invariant hunks == HunksUpTo(ops, context, change)
    {
      if ops[change].kind != Keep {
        var start, end := Max(0, change - context), Min(|ops|, change + context + 1);
        if |hunks| > 0 && start <= hunks[|hunks| - 1].end {
          if end > hunks[|hunks| - 1].end {
            hunks := hunks[..|hunks| - 1] + [Interval(hunks[|hunks| - 1].start, end)];
          } else {
            assert hunks == hunks[..|hunks| - 1] + [hunks[|hunks| - 1]];
          }
        } else {
          hunks := hunks + [Interval(start, end)];
        }
      }
    }
    HunksAreTheChangedRuns(ops, context);
  }

  /** Prints one hunk. */
  method PrintHunk(ops: seq<DiffLine>, hunk: Interval) returns (text: string)
    requires InRange(ops, hunk)
    ensures text == Unlines(HunkLines(ops, hunk))
  {
    var oldBefore, newBefore := ConsumedLines(ops[..hunk.start]);
    var part := ops[hunk.start..hunk.end];
    var oldCount, newCount := ConsumedLines(part);
    var oldStart, newStart := oldBefore + 1, newBefore + 1;
    if oldCount == 0 {
      oldStart := oldStart - 1;
    }
    if newCount == 0 {
      newStart := newStart - 1;
    }
    var lines := PrintOps(part);
    text := HunkHeader(oldStart, oldCount, newStart, newCount) + "\n" + lines;
    assert HunkLines(ops, hunk)[1..] == OpLines(part);
  }

  method PrintOps(ops: seq<DiffLine>) returns (text: string)
    ensures text == Unlines(OpLines(ops))
  {
    text := "";
    for i := 0 to |ops|
      invariant text == Unlines(OpLines(ops[..i]))
    {
      assert OpLines(ops[..i + 1]) == OpLines(ops[..i]) + [OpLine(ops[i])];
      UnlinesConcat(OpLines(ops[..i]), [OpLine(ops[i])]);
      var line := OpLine(ops[i]) + "\n";
      assert Unlines([OpLine(ops[i])]) == line;
      text := text + line;
    }
    assert ops[..|ops|] == ops;
  }

  /** unifiedDiff. */
  method Unified(from: string, to: string, before: string, after: string, contextLines: int) returns (text: string)
    ensures text == DiffText(from, to, before, after, contextLines)
  {
    if before == after {
      return "";
    }
    var ops := Diff(SplitTextLines(before).0, SplitTextLines(after).0);
    var context := if contextLines < 0 then 0 else contextLines;
    var hunks := MergeHunks(ops, context);
    if |hunks| == 0 {
      return "";
    }
    var body := PrintHunks(ops, hunks);
    text := FileHeader(from, to) + body;
  }

  method PrintHunks(ops: seq<DiffLine>, hunks: seq<Interval>) returns (text: string)
    requires forall k :: 0 <= k < |hunks| ==> InRange(ops, hunks[k])
    ensures text == Unlines(BodyLines(ops, hunks))
  {
    text := "";
    ghost var whole := Unlines(BodyLines(ops, hunks));
    EmptyConcat("", whole);
    assert hunks[0..] == hunks;
    for k := 0 to |hunks|
      invariant text + Unlines(BodyLines(ops, hunks[k..])) == whole
    {
      ghost var rest := BodyLines(ops, hunks[k + 1..]);
      assert hunks[k..][0] == hunks[k] && hunks[k..][1..] == hunks[k + 1..];
      UnlinesConcat(HunkLines(ops, hunks[k]), rest);
      var printed := PrintHunk(ops, hunks[k]);
      Regroup3(text, printed, Unlines(rest));
      text := text + printed;
    }
    assert text + "" == text;
  }
}
