/** Diff, then patch: exactly when the round trip yields the new text, the usual case, and where it fails. */
module PatchLaw {
  import opened Text
  import opened LineDiff
  import opened UnifiedDiff
  import opened Patch
  import opened PatchRoundTrip
  import opened PatchExact

  // ----- The law -----

  lemma {:induction false} ScriptTexts(before: string, after: string)
    ensures var ops := ScriptOf(before, after);
            && OldLines(ops) == SplitTextLines(before).0 && NewLines(ops) == SplitTextLines(after).0
            && forall i :: 0 <= i < |ops| ==> LfFree(ops[i].text)
  {
    ScriptProjects(SplitTextLines(before).0, SplitTextLines(after).0);
    TextsAreLfFree(ScriptOf(before, after));
  }

  lemma {:induction false} HunksAreSound(ops: seq<DiffLine>, context: nat)
    ensures Separated(ops, Hunks(ops, context)) && AllInRange(ops, Hunks(ops, context))
    ensures CoversChanges(ops, Hunks(ops, context))
  {
    HunksAreTheChangedRuns(ops, context);
    forall i | IsChange(ops, i) ensures Covered(Hunks(ops, context), i) {
      assert i - context <= i <= i + context && NearChange(ops, context, i);
    }
  }

  /** The lines of both texts together can be counted in an `int`. */
  predicate FitInts(before: string, after: string) {
    |SplitTextLines(before).0| + |SplitTextLines(after).0| <= MAX_INT
  }

  /** The diff has a hunk, the two texts end alike, and every hunk is faithful. */
  ghost predicate Patchable(before: string, after: string, context: int) {
    var ops := ScriptOf(before, after);
    var hunks := Hunks(ops, Max(context, 0));
    HunksAreSound(ops, Max(context, 0));
    && before != after
    && |hunks| > 0
    && SplitTextLines(before).1 == SplitTextLines(after).1
    && AllFaithful(ops, hunks)
  }

  lemma {:induction false} EmptyPatchFails(base: string, fuzz: nat)
    ensures ApplyPatch(base, "", fuzz).Err?
  {
    assert Split(FoldCrlf("")) == [""];
    assert ParseHeader("").None?;
  }

  /** The lines that applying a printed diff produces: the new lines exactly when every hunk is faithful. */
  lemma {:induction false} AppliedLines(ops: seq<DiffLine>, hunks: seq<Interval>, fuzz: nat)
    requires Chained(ops, 0, hunks) && AllInRange(ops, hunks) && AllCountsAgree(ops, hunks)
    requires forall i :: 0 <= i < |ops| ==> LfFree(ops[i].text)
    requires |OldLines(ops)| + |NewLines(ops)| <= MAX_INT
    ensures var result := ApplyFrom(OldLines(ops), HunksOf(ops, hunks), fuzz, 0, 0);
            && (result.Ok? ==> AllLfFree(result.value) && |result.value| <= |NewLines(ops)|)
            && (AllFaithful(ops, hunks) ==> result == Ok(NewLines(ops)))
            && (fuzz == 0 && result == Ok(NewLines(ops)) ==> AllFaithful(ops, hunks))
  {
    var result := ApplyFrom(OldLines(ops), HunksOf(ops, hunks), fuzz, 0, 0);
    ApplyGrows(OldLines(ops), HunksOf(ops, hunks), fuzz, 0, 0);
    ReadHunksGrow(ops, 0, hunks);
    assert ops[0..] == ops;
    PatchTextsAreLfFree(ops, hunks);
    ApplyKeepsLfFree(OldLines(ops), HunksOf(ops, hunks), fuzz, 0, 0);
    if AllReadable(ops, hunks) {
      HunksExact(ops, hunks, fuzz);
    }
  }

  lemma {:induction false} OldLinesAreLfFree(ops: seq<DiffLine>)
    requires forall i :: 0 <= i < |ops| ==> LfFree(ops[i].text)
    ensures AllLfFree(OldLines(ops))
  {
    if |ops| > 0 {
      OldLinesAreLfFree(ops[1..]);
    }
  }

  lemma {:induction false} PatchTextsAreLfFree(ops: seq<DiffLine>, hunks: seq<Interval>)
    requires AllInRange(ops, hunks) && forall i :: 0 <= i < |ops| ==> LfFree(ops[i].text)
    ensures AllLfFree(OldLines(ops))
    ensures forall j :: 0 <= j < |hunks| ==> AllLfFree(HunksOf(ops, hunks)[j].newLines)
  {
    OldLinesAreLfFree(ops);
    if |hunks| > 0 {
      PatchTextsAreLfFree(ops, hunks[1..]);
      NewLinesAreLfFree(ReadPart(Part(ops, hunks[0])));
      var all, rest := HunksOf(ops, hunks), HunksOf(ops, hunks[1..]);
      assert all[0] == HunkOf(ops, hunks[0]) && all[1..] == rest;
      assert forall j :: 1 <= j < |all| ==> all[j] == rest[j - 1];
    }
  }

  lemma {:induction false} FaithfulCountsAgree(ops: seq<DiffLine>, hunks: seq<Interval>)
    requires AllInRange(ops, hunks) && AllFaithful(ops, hunks)
    ensures AllCountsAgree(ops, hunks)
  {
    forall k | 0 <= k < |hunks| ensures CountsAgree(Part(ops, hunks[k])) {
      assert Faithful(ops, hunks[k]);
      ReadableIsRead(Part(ops, hunks[k]));
    }
  }

  /** The applied text is `after` exactly when the applied lines are those of `after` and the texts end alike. */
  lemma {:induction false} AppliedText(before: string, after: string, patch: string, hunks: seq<PatchHunk>, fuzz: nat)
    requires ParsePatch(patch) == Ok(hunks)
    requires var result := ApplyFrom(SplitTextLines(before).0, hunks, fuzz, 0, 0);
             result.Ok? ==> AllLfFree(result.value) && |result.value| <= |SplitTextLines(after).0|
    ensures var lines, result := ApplyFrom(SplitTextLines(before).0, hunks, fuzz, 0, 0), ApplyPatch(before, patch, fuzz);
            var right := lines == Ok(SplitTextLines(after).0) && SplitTextLines(before).1 == SplitTextLines(after).1;
            && (right ==> result == Ok((FoldCrlf(after), |hunks|)))
            && (result.Ok? && result.value.0 == FoldCrlf(after) ==> right)
  {
    var lines := ApplyFrom(SplitTextLines(before).0, hunks, fuzz, 0, 0);
    if lines.Ok? {
      TextDeterminesLines(lines.value, SplitTextLines(before).1, after);
    }
  }

  /** The round trip for a diff that has hunks, in terms of its operations. */
  lemma {:induction false} PrintedHunksApplied(from: string, to: string, before: string, after: string, hunks: seq<Interval>, fuzz: nat)
    requires HeaderSafe(from, to) && FitInts(before, after) && |hunks| > 0
    requires Chained(ScriptOf(before, after), 0, hunks) && AllInRange(ScriptOf(before, after), hunks)
    ensures var ops := ScriptOf(before, after);
            var result := ApplyPatch(before, FileHeader(from, to) + Unlines(BodyLines(ops, hunks)), fuzz);
            var right := AllFaithful(ops, hunks) && SplitTextLines(before).1 == SplitTextLines(after).1;
            && (right ==> result == Ok((FoldCrlf(after), |hunks|)))
            && (fuzz == 0 && result.Ok? && result.value.0 == FoldCrlf(after) ==> right)
  {
    var ops := ScriptOf(before, after);
    ScriptTexts(before, after);
    ParsePrintedPatch(from, to, ops, hunks);
    if AllFaithful(ops, hunks) {
      FaithfulCountsAgree(ops, hunks);
    }
    if AllCountsAgree(ops, hunks) {
      AppliedLines(ops, hunks, fuzz);
      AppliedText(before, after, FileHeader(from, to) + Unlines(BodyLines(ops, hunks)), HunksOf(ops, hunks), fuzz);
    }
  }

  /** The round trip for a diff that has hunks. */
  lemma {:induction false} PrintedDiffApplied(from: string, to: string, before: string, after: string, context: nat, fuzz: nat)
    requires HeaderSafe(from, to) && FitInts(before, after)
    requires before != after && |Hunks(ScriptOf(before, after), context)| > 0
    ensures var result := ApplyPatch(before, DiffText(from, to, before, after, context), fuzz);
            && (Patchable(before, after, context) ==>
                  result == Ok((FoldCrlf(after), |Hunks(ScriptOf(before, after), context)|)))
            && (fuzz == 0 && result.Ok? && result.value.0 == FoldCrlf(after) ==> Patchable(before, after, context))
  {
    var hunks := Hunks(ScriptOf(before, after), context);
    HunksAreSound(ScriptOf(before, after), context);
    HunksAreChained(ScriptOf(before, after), hunks, 0);
    assert hunks[0..] == hunks;
    PrintedHunksApplied(from, to, before, after, hunks, fuzz);
  }

  /**
   The law: patching `before` with its diff to `after` gives `after` (its CRLFs folded, as the applier folds all
   it reads) exactly when the pair is Patchable.
   */
  lemma {:induction false} DiffThenPatch(from: string, to: string, before: string, after: string, context: int)
    requires HeaderSafe(from, to) && FitInts(before, after)
    ensures var result := ApplyPatch(before, DiffText(from, to, before, after, context), 0);
            result.Ok? && result.value.0 == FoldCrlf(after) <==> Patchable(before, after, context)
  {
    var context' := Max(context, 0);
    HunksAreSound(ScriptOf(before, after), context');
    if before == after || |Hunks(ScriptOf(before, after), context')| == 0 {
      EmptyPatchFails(before, 0);
    } else {
      PrintedDiffApplied(from, to, before, after, context', 0);
    }
  }

  /** No amount of fuzz disturbs a faithful diff: every hunk is found where it is expected. */
  lemma {:induction false} DiffThenPatchWithFuzz(from: string, to: string, before: string, after: string, context: int, fuzz: nat)
    requires HeaderSafe(from, to) && FitInts(before, after) && Patchable(before, after, context)
    ensures ApplyPatch(before, DiffText(from, to, before, after, context), fuzz)
         == Ok((FoldCrlf(after), |Hunks(ScriptOf(before, after), Max(context, 0))|))
  {
    PrintedDiffApplied(from, to, before, after, Max(context, 0), fuzz);
  }

  // ----- The usual case -----

  /** File names of one line are always safe. */
  lemma {:induction false} DiffThenPatchOneLineNames(from: string, to: string, before: string, after: string, context: int)
    requires LfFree(from) && LfFree(to) && FitInts(before, after)
    ensures var result := ApplyPatch(before, DiffText(from, to, before, after, context), 0);
            result.Ok? && result.value.0 == FoldCrlf(after) <==> Patchable(before, after, context)
  {
    hide *;
    OneLineNames(from, to);
    DiffThenPatch(from, to, before, after, context);
  }

  lemma {:induction false} ContextKeepsAnOldLine(ops: seq<DiffLine>, context: nat, k: nat)
    requires context > 0 && k < |Hunks(ops, context)| && |OldLines(ops)| > 0
    ensures Separated(ops, Hunks(ops, context)) && InRange(ops, Hunks(ops, context)[k])
    ensures |OldLines(Part(ops, Hunks(ops, context)[k]))| > 0
  {
    hide Hunks, NearChange, Separated, Covered, OldLines;
    HunksAreTheChangedRuns(ops, context);
    var hunk := Hunks(ops, context)[k];
    SeparatedAreInRange(ops, Hunks(ops, context), k);
    assert ops[0..|ops|] == ops;
    if |OldLines(Part(ops, hunk))| == 0 {
      AllInsertions(Part(ops, hunk));
      InsertionsReachBothEnds(ops, context, Hunks(ops, context), k);
    }
  }

  lemma {:induction false} SeparatedAreInRange(ops: seq<DiffLine>, hunks: seq<Interval>, k: nat)
    requires Separated(ops, hunks) && k < |hunks|
    ensures InRange(ops, hunks[k]) && hunks[k].start < hunks[k].end
  {
  }

  /** The operation next to a hunk that only inserts would be near a change, and so in a hunk itself. */
  lemma {:induction false} InsertionsReachBothEnds(ops: seq<DiffLine>, context: nat, hunks: seq<Interval>, k: nat)
    requires context > 0 && k < |hunks| && Separated(ops, hunks)
    requires forall i :: Covered(hunks, i) <==> NearChange(ops, context, i)
    requires hunks[k].start < hunks[k].end <= |ops| && forall i :: hunks[k].start <= i < hunks[k].end ==> IsChange(ops, i)
    ensures hunks[k].start == 0 && hunks[k].end == |ops|
  {
    hide Separated, Covered;
    var hunk := hunks[k];
    if hunk.start > 0 {
      assert IsChange(ops, hunk.start) && NearChange(ops, context, hunk.start - 1);
      OutsideIsUncovered(ops, hunks, k, hunk.start - 1);
    }
    if hunk.end < |ops| {
      assert IsChange(ops, hunk.end - 1) && NearChange(ops, context, hunk.end);
      OutsideIsUncovered(ops, hunks, k, hunk.end);
    }
  }

  lemma {:induction false} AllInsertions(part: seq<DiffLine>)
    requires |OldLines(part)| == 0
    ensures forall i :: 0 <= i < |part| ==> part[i].kind == Insert
  {
    if |part| > 0 {
      AllInsertions(part[1..]);
      assert forall i :: 1 <= i < |part| ==> part[i] == part[1..][i - 1];
    }
  }

  /** The operations next to a hunk lie in no hunk. */
  lemma {:induction false} OutsideIsUncovered(ops: seq<DiffLine>, hunks: seq<Interval>, k: nat, p: int)
    requires k < |hunks| && Separated(ops, hunks) && (p == hunks[k].start - 1 || p == hunks[k].end)
    ensures !Covered(hunks, p)
  {
    assert forall l :: 0 <= l < k ==> hunks[l].end < hunks[k].start;
    assert forall l :: k < l < |hunks| ==> hunks[k].end < hunks[l].start;
  }

  lemma {:induction false} DifferentLinesHaveHunks(ops: seq<DiffLine>, context: nat)
    requires OldLines(ops) != NewLines(ops)
    ensures |Hunks(ops, context)| > 0
  {
    HunksAreSound(ops, context);
    if |Hunks(ops, context)| == 0 {
      forall i | 0 <= i < |ops| ensures ops[i].kind == Keep {
        assert !Covered(Hunks(ops, context), i);
        assert !IsChange(ops, i);
      }
      KeptProjects(ops);
    }
  }

  lemma {:induction false} PartInherits(ops: seq<DiffLine>, hunk: Interval)
    requires InRange(ops, hunk) && Readable(ops) && CrFree(ops)
    ensures Readable(Part(ops, hunk)) && CrFree(Part(ops, hunk))
  {
    var part := Part(ops, hunk);
    forall i | 0 <= i < |part| ensures !LooksLikeFileHeader(part[i]) && !EndsInCr(part[i].text) {
      assert part[i] == ops[hunk.start + i];
    }
  }

  lemma {:induction false} HunksWithContextAreFaithful(ops: seq<DiffLine>, context: nat)
    requires context > 0 && |OldLines(ops)| > 0 && Readable(ops) && CrFree(ops)
    ensures AllInRange(ops, Hunks(ops, context)) && AllFaithful(ops, Hunks(ops, context))
  {
    var hunks := Hunks(ops, context);
    HunksAreSound(ops, context);
    forall k | 0 <= k < |hunks| ensures Faithful(ops, hunks[k]) {
      ContextKeepsAnOldLine(ops, context, k);
      PartInherits(ops, hunks[k]);
    }
  }

  /**
   With at least one line of context and one old line, what remains are conditions on single lines: no carriage
   return at the end of one, and no deleted or inserted one that prints like a file header.
   */
  lemma {:induction false} DiffThenPatchWithContext(from: string, to: string, before: string, after: string, context: int, fuzz: nat)
    requires HeaderSafe(from, to) && FitInts(before, after)
    requires context >= 1 && |SplitTextLines(before).0| > 0
    requires SplitTextLines(before).0 != SplitTextLines(after).0 && SplitTextLines(before).1 == SplitTextLines(after).1
    requires Readable(ScriptOf(before, after)) && CrFree(ScriptOf(before, after))
    ensures ApplyPatch(before, DiffText(from, to, before, after, context), fuzz)
         == Ok((FoldCrlf(after), |Hunks(ScriptOf(before, after), context)|))
  {
    var ops := ScriptOf(before, after);
    ScriptTexts(before, after);
    HunksAreSound(ops, context);
    DifferentLinesHaveHunks(ops, context);
    HunksWithContextAreFaithful(ops, context);
    DiffThenPatchWithFuzz(from, to, before, after, context, fuzz);
  }

  // ----- Where the law fails -----

  /** A hunk of a diff from nothing asks for the place before the first line. */
  lemma {:induction false} HunkFromNothing(ops: seq<DiffLine>, hunk: Interval)
    requires InRange(ops, hunk) && |OldLines(ops)| == 0
    ensures HunkOf(ops, hunk).oldStart == 0 && HunkOf(ops, hunk).oldLines == []
  {
    SplitAt(ops, hunk.start, hunk.end);
    SplitProjections(ops, hunk.start);
    SplitProjections(ops[hunk.start..], hunk.end - hunk.start);
    assert ops[hunk.start..][..hunk.end - hunk.start] == Part(ops, hunk);
    ReadPartLoses(Part(ops, hunk));
  }

  lemma {:induction false} NothingBeforeFirst(lines: seq<string>, hunks: seq<PatchHunk>)
    requires |hunks| > 0 && hunks[0].oldStart == 0 && hunks[0].oldLines == []
    ensures ApplyFrom(lines, hunks, 0, 0, 0).Err?
  {
    assert SearchIntsFrom(lines, [], -1, 0, 1) == NotFound;
    assert SearchInts(lines, [], -1, 0) == NotFound;
  }

  lemma {:induction false} HunksFromNothingFail(patch: string, ops: seq<DiffLine>, hunks: seq<Interval>)
    requires AllInRange(ops, hunks) && |hunks| > 0 && |OldLines(ops)| == 0
    requires if AllCountsAgree(ops, hunks) then ParsePatch(patch) == Ok(HunksOf(ops, hunks)) else ParsePatch(patch).Err?
    ensures ApplyPatch("", patch, 0).Err?
  {
    hide ApplyFrom, ParsePatch, AllCountsAgree;
    HunkFromNothing(ops, hunks[0]);
    NothingBeforeFirst([], HunksOf(ops, hunks));
    NoLinesInNothing();
  }

  /** The diff from an empty file never applies to it, whatever the context. */
  lemma {:induction false} EmptyFileIsNotPatchable(from: string, to: string, after: string, context: int)
    requires HeaderSafe(from, to)
    ensures ApplyPatch("", DiffText(from, to, "", after, context), 0).Err?
  {
    hide ApplyPatch, ParsePatch, FoldCrlf, AllCountsAgree, HunksOf, BodyLines, FileHeader, HeaderSafe, Separated, CoversChanges;
    var ops := ScriptOf("", after);
    var hunks := Hunks(ops, Max(context, 0));
    ScriptTexts("", after);
    HunksAreSound(ops, Max(context, 0));
    EmptyPatchFails("", 0);
    NoLinesInNothing();
    if |hunks| > 0 && after != "" {
      ParsePrintedPatch(from, to, ops, hunks);
      HunksFromNothingFail(FileHeader(from, to) + Unlines(BodyLines(ops, hunks)), ops, hunks);
    }
  }

  lemma {:induction false} NoLinesInNothing()
    ensures SplitTextLines("").0 == []
  {
  }
}
