/** Which of several shortest scripts a diff is, and what its headers and its names say. */
module DiffLaws {
  import opened Text
  import opened LineDiff
  import opened UnifiedDiff

  // ----- Which script -----

  /**
   What the next operation may be when the first lines of each side are done: two equal lines are kept; otherwise a line
   is deleted as long as that costs no common line, and inserted only if it would.
   */
  ghost predicate IsNext(oldLines: seq<string>, newLines: seq<string>, i: nat, j: nat, op: DiffLine) {
    && i <= |oldLines| && j <= |newLines|
    && if i < |oldLines| && j < |newLines| && oldLines[i] == newLines[j] then op == DiffLine(Keep, oldLines[i])
       else if j == |newLines| then i < |oldLines| && op == DiffLine(Delete, oldLines[i])
       else if i == |oldLines| then op == DiffLine(Insert, newLines[j])
       else if Lcs(oldLines, newLines, i + 1, j) >= Lcs(oldLines, newLines, i, j + 1) then op == DiffLine(Delete, oldLines[i])
       else op == DiffLine(Insert, newLines[j])
  }

  lemma {:induction false} WalkIsNext(oldLines: seq<string>, newLines: seq<string>, i: nat, j: nat, k: nat)
    requires i <= |oldLines| && j <= |newLines| && k < |Walk(oldLines, newLines, i, j)|
    ensures var ops := Walk(oldLines, newLines, i, j);
            IsNext(oldLines, newLines, i + |OldLines(ops[..k])|, j + |NewLines(ops[..k])|, ops[k])
    decreases |oldLines| - i + |newLines| - j
  {
    hide Lcs;
    var ops := Walk(oldLines, newLines, i, j);
    if k > 0 {
      var i' := i + |OldPart(ops[0])|;
      var j' := j + |NewPart(ops[0])|;
      var rest := Walk(oldLines, newLines, i', j');
      assert ops == [ops[0]] + rest;
      assert ops[..k][0] == ops[0] && ops[..k][1..] == rest[..k - 1];
      WalkIsNext(oldLines, newLines, i', j', k - 1);
    }
  }

  /** Up to four million cells, every operation is the one that is due. */
  lemma {:induction false} ScriptIsNext(oldLines: seq<string>, newLines: seq<string>, k: nat)
    requires |oldLines| * |newLines| <= 4_000_000 && k < |Script(oldLines, newLines)|
    ensures var ops := Script(oldLines, newLines);
            IsNext(oldLines, newLines, |OldLines(ops[..k])|, |NewLines(ops[..k])|, ops[k])
  {
    WalkIsNext(oldLines, newLines, 0, 0, k);
  }

  /** Above that all old lines go and all new ones come. */
  lemma {:induction false} LargeScript(oldLines: seq<string>, newLines: seq<string>, k: nat)
    requires |oldLines| * |newLines| > 4_000_000
    ensures var ops := Script(oldLines, newLines);
            && |ops| == |oldLines| + |newLines|
            && (k < |oldLines| ==> ops[k] == DiffLine(Delete, oldLines[k]))
            && (k < |newLines| ==> ops[|oldLines| + k] == DiffLine(Insert, newLines[k]))
  {
  }

  // ----- Headers and names -----

  /** The lines that a range names; one without lines names the place after its start line. */
  ghost predicate NamesLines(lines: seq<string>, start: nat, count: nat, part: seq<string>) {
    var i := if count == 0 then start else start - 1;
    0 <= i && i + count <= |lines| && lines[i..i + count] == part
  }

  lemma {:induction false} Between(a: seq<string>, b: seq<string>, c: seq<string>)
    ensures NamesLines(a + (b + c), StartLine(|a|, |b|), |b|, b)
  {
  }

  lemma {:induction false} InThree(ops: seq<DiffLine>, hunk: Interval)
    requires InRange(ops, hunk)
    ensures ops == ops[..hunk.start] + (ops[hunk.start..hunk.end] + ops[hunk.end..])
  {
  }

  lemma {:induction false} RangesNameLines(ops: seq<DiffLine>, hunk: Interval)
    requires InRange(ops, hunk)
    ensures var part := OldLines(ops[hunk.start..hunk.end]);
            NamesLines(OldLines(ops), StartLine(|OldLines(ops[..hunk.start])|, |part|), |part|, part)
    ensures var part := NewLines(ops[hunk.start..hunk.end]);
            NamesLines(NewLines(ops), StartLine(|NewLines(ops[..hunk.start])|, |part|), |part|, part)
  {
    hide OldLines, NewLines, StartLine, NamesLines;
    var before, part, after := ops[..hunk.start], ops[hunk.start..hunk.end], ops[hunk.end..];
    InThree(ops, hunk);
    OldLinesConcat(before, part + after);
    OldLinesConcat(part, after);
    NewLinesConcat(before, part + after);
    NewLinesConcat(part, after);
    Between(OldLines(before), OldLines(part), OldLines(after));
    Between(NewLines(before), NewLines(part), NewLines(after));
  }

  /** Both ranges of a hunk's header name the lines of the hunk, each in its own text. */
  lemma {:induction false} HeaderNamesItsLines(ops: seq<DiffLine>, hunk: Interval) returns (a: nat, n: nat, b: nat, m: nat)
    requires InRange(ops, hunk)
    ensures HeaderOf(ops, hunk) == "@@ -" + Decimal(a) + "," + Decimal(n) + " +" + Decimal(b) + "," + Decimal(m) + " @@"
    ensures NamesLines(OldLines(ops), a, n, OldLines(ops[hunk.start..hunk.end]))
    ensures NamesLines(NewLines(ops), b, m, NewLines(ops[hunk.start..hunk.end]))
  {
    hide OldLines, NewLines, StartLine, NamesLines, Decimal;
    RangesNameLines(ops, hunk);
    n, m := |OldLines(ops[hunk.start..hunk.end])|, |NewLines(ops[hunk.start..hunk.end])|;
    a, b := StartLine(|OldLines(ops[..hunk.start])|, n), StartLine(|NewLines(ops[..hunk.start])|, m);
  }

  lemma {:induction false} BodyStartsWithHeader(ops: seq<DiffLine>, hunks: seq<Interval>)
    requires |hunks| > 0 && forall k :: 0 <= k < |hunks| ==> InRange(ops, hunks[k])
    ensures "@@ -" <= Unlines(BodyLines(ops, hunks))
  {
    hide Decimal, OldLines, NewLines, OpLines, StartLine;
    var lines := BodyLines(ops, hunks);
    assert lines[0] == HeaderOf(ops, hunks[0]);
    HeaderStarts(ops, hunks[0]);
    assert lines[0][..4] == "@@ -";
    hide BodyLines;
    assert Unlines(lines)[..4] == lines[0][..4];
  }

  lemma {:induction false} HeaderStarts(ops: seq<DiffLine>, hunk: Interval)
    requires InRange(ops, hunk)
    ensures "@@ -" <= HeaderOf(ops, hunk)
  {
    hide Decimal, OldLines, NewLines, StartLine;
  }

  lemma {:induction false} PrefixBehind(a: string, prefix: string, b: string)
    requires prefix <= b
    ensures a + prefix <= a + b
  {
  }

  /** A diff that is not empty starts with the two names and goes on with a hunk. */
  lemma {:induction false} DiffStartsWithNames(from: string, to: string, before: string, after: string, context: int)
    ensures var diff := DiffText(from, to, before, after, context);
            diff != "" ==> HasPrefix(diff, "--- " + from + "\n+++ " + to + "\n@@ -")
  {
    hide Script, Hunks, BodyLines, Unlines;
    if before != after {
      var ops := ScriptOf(before, after);
      var hunks := Hunks(ops, Max(context, 0));
      HunksAreTheChangedRuns(ops, Max(context, 0));
      if |hunks| > 0 {
        BodyStartsWithHeader(ops, hunks);
        NamesInFront(from, to);
        hide FileHeader;
        PrefixBehind(FileHeader(from, to), "@@ -", Unlines(BodyLines(ops, hunks)));
      }
    }
  }

  lemma {:induction false} NamesInFront(from: string, to: string)
    ensures FileHeader(from, to) + "@@ -" == "--- " + from + "\n+++ " + to + "\n@@ -"
  {
  }

  /** The lines of a text, and whether it ends with a line feed, make it up, carriage returns before line feeds aside. */
  lemma {:induction false} LinesMakeTheText(value: string)
    ensures var (lines, trailing) := SplitTextLines(value);
            FoldCrlf(value) == Join(lines) + (if trailing then "\n" else "")
    ensures var (lines, trailing) := SplitTextLines(value); trailing <==> |FoldCrlf(value)| > 0 && FoldCrlf(value)[|FoldCrlf(value)| - 1] == '\n'
    ensures forall i :: 0 <= i < |SplitTextLines(value).0| ==> '\n' !in SplitTextLines(value).0[i]
  {
    var folded := FoldCrlf(value);
    var trailing := |folded| > 0 && folded[|folded| - 1] == '\n';
    var trimmed := if trailing then folded[..|folded| - 1] else folded;
    JoinSplit(trimmed);
    assert folded == trimmed + (if trailing then "\n" else "");
  }

  // ----- When a diff is empty -----

  lemma {:induction false} SameLinesAreKept(lines: seq<string>, i: nat)
    requires i <= |lines|
    ensures forall k :: 0 <= k < |Walk(lines, lines, i, i)| ==> Walk(lines, lines, i, i)[k].kind == Keep
    decreases |lines| - i
  {
    if i < |lines| {
      SameLinesAreKept(lines, i + 1);
    }
  }

  lemma {:induction false} NoHunkWithoutChange(ops: seq<DiffLine>, context: nat)
    ensures |Hunks(ops, context)| == 0 <==> forall i :: 0 <= i < |ops| ==> ops[i].kind == Keep
  {
    HunksAreTheChangedRuns(ops, context);
    var hunks := Hunks(ops, context);
    if |hunks| > 0 {
      assert hunks[0].start < hunks[0].end && Covered(hunks, hunks[0].start);
      assert NearChange(ops, context, hunks[0].start);
    } else {
      forall i | 0 <= i < |ops| ensures ops[i].kind == Keep {
        assert !Covered(hunks, i);
        assert IsChange(ops, i) ==> NearChange(ops, context, i);
      }
    }
  }

  lemma {:induction false} AllKeptIsTheSame(ops: seq<DiffLine>)
    requires forall i :: 0 <= i < |ops| ==> ops[i].kind == Keep
    ensures OldLines(ops) == NewLines(ops)
  {
    if |ops| > 0 {
      AllKeptIsTheSame(ops[1..]);
    }
  }

  /** A diff is empty exactly between equal texts, and between texts of the same lines, if these are none or not too many. */
  lemma {:induction false} EmptyDiff(from: string, to: string, before: string, after: string, context: int)
    ensures var lines, lines' := SplitTextLines(before).0, SplitTextLines(after).0;
            DiffText(from, to, before, after, context) == ""
            <==> before == after || (lines == lines' && |lines| * |lines| <= 4_000_000)
  {
    hide SplitTextLines, Walk, Unlines, BodyLines, OldLines, NewLines, Hunks;
    if before != after {
      var lines, lines' := SplitTextLines(before).0, SplitTextLines(after).0;
      var ops := ScriptOf(before, after);
      HunksAreTheChangedRuns(ops, Max(context, 0));
      NoHunkWithoutChange(ops, Max(context, 0));
      ScriptProjects(lines, lines');
      if forall i :: 0 <= i < |ops| ==> ops[i].kind == Keep {
        AllKeptIsTheSame(ops);
      }
      if lines == lines' {
        SameLinesAreKept(lines, 0);
        if |lines| * |lines| > 4_000_000 {
          LargeScript(lines, lines, 0);
          SquareIsPositive(|lines|);
        }
      }
    }
  }

  lemma {:induction false} SquareIsPositive(n: nat)
    ensures n * n > 4_000_000 ==> n > 0
  {
  }
}
