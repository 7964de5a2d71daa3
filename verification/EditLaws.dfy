/** When a batch of edits succeeds, and what an end may be corrected to, in terms of the text alone. */
module EditLaws {
  import opened Text
  import opened TextLaws
  import opened Brackets
  import opened Splice
  import opened EditEngine
  import opened EditBatch

  // ----- Closer-only lines -----

  predicate IsMark(c: char) {
    c in {'}', ']', ')', ';', ','}
  }

  /** White space, closing marks, white space, closing marks, white space; any of these may be missing. */
  ghost predicate IsCloserLine(line: string) {
    exists a, b, c, d, e :: IsInParts(line, a, b, c, d, e)
  }

  ghost predicate IsInParts(line: string, a: string, b: string, c: string, d: string, e: string) {
    line == a + (b + c + d) + e
    && AllCut(a, IsWhite) && AllCut(c, IsWhite) && AllCut(e, IsWhite) && AllCut(b, IsMark) && AllCut(d, IsMark)
  }

  lemma {:induction false} MarksAreNoSpace(s: string)
    requires AllCut(s, IsMark)
    ensures AllCut(s, IsCloserMark) && forall i :: 0 <= i < |s| ==> !IsSpace(s[i])
  {
  }

  lemma {:induction false} SpacesAreNoMarks(s: string)
    requires AllCut(s, IsSpace)
    ensures forall i :: 0 <= i < |s| ==> !IsCloserMark(s[i])
  {
  }

  lemma {:induction false} PartsAreCloserOnly(line: string, a: string, b: string, c: string, d: string, e: string)
    requires IsInParts(line, a, b, c, d, e)
    ensures CloserOnly(line)
  {
    WhiteSpace(a);
    WhiteSpace(c);
    WhiteSpace(e);
    MarksAreNoSpace(b);
    MarksAreNoSpace(d);
    SpacesAreNoMarks(c);
    if b == "" && d == "" {
      assert line == (a + c + e) + "" + "" && AllCut(a + c + e, IsSpace);
      TrimOf(a + c + e, "", "", IsSpace);
    } else if b == "" {
      assert line == (a + c) + d + e && AllCut(a + c, IsSpace);
      TrimOf(a + c, d, e, IsSpace);
      assert d == d + "" + "";
      TrimOf(d, "", "", IsCloserMark);
      assert Trim("", IsSpace) == "";
    } else if d == "" {
      assert line == a + b + (c + e) && AllCut(c + e, IsSpace);
      TrimOf(a, b, c + e, IsSpace);
      assert b == b + "" + "";
      TrimOf(b, "", "", IsCloserMark);
      assert Trim("", IsSpace) == "";
    } else {
      TrimOf(a, b + c + d, e, IsSpace);
      TrimOf(b, c, d, IsCloserMark);
      assert c == c + "" + "";
      TrimOf(c, "", "", IsSpace);
    }
  }

  lemma {:induction false} CloserOnlyHasParts(line: string)
    requires CloserOnly(line)
    ensures IsCloserLine(line)
  {
    var value := Trim(line, IsSpace);
    var a, e := Trimmed(line, IsSpace);
    if value == "" {
      assert value == "" + "" + "";
      WhiteSpace(a);
      WhiteSpace("");
      WhiteSpace(e);
      assert IsInParts(line, a, "", "", "", e);
    } else {
      var inner := Trim(value, IsCloserMark);
      var b, d := Trimmed(value, IsCloserMark);
      var p, q := Trimmed(inner, IsSpace);
      assert inner == p + q;
      assert AllCut(inner, IsSpace);
      WhiteSpace(a);
      WhiteSpace(inner);
      WhiteSpace(e);
      assert IsInParts(line, a, b, inner, d, e);
    }
  }

  /** The lines that an end may be moved over. */
  lemma {:induction false} CloserLines(line: string)
    ensures CloserOnly(line) <==> IsCloserLine(line)
  {
    hide CloserOnly, IsInParts;
    if IsCloserLine(line) {
      var a, b, c, d, e :| IsInParts(line, a, b, c, d, e);
      PartsAreCloserOnly(line, a, b, c, d, e);
    }
    if CloserOnly(line) {
      CloserOnlyHasParts(line);
    }
  }

  // ----- The correction of an end -----

  /** Moved by one to three lines over closer-only ones, the end leaves a span with a line in it and a text in the grammar. */
  ghost predicate IsCorrection(lines: seq<string>, edit: ResolvedEdit, delta: int) {
    && 1 <= (if delta < 0 then -delta else delta) <= 3
    && edit.start < edit.end + delta <= |lines| && edit.end <= |lines|
    && (forall i :: edit.end <= i < edit.end + delta || edit.end + delta <= i < edit.end ==> IsCloserLine(lines[i]))
    && InGrammar(Join(lines[..edit.start] + edit.replacement + lines[edit.end + delta..]))
  }

  lemma {:induction false} CorrectionsAreSnaps(lines: seq<string>, edit: ResolvedEdit, delta: int)
    requires InRange(edit, |lines|)
    ensures CanSnap(lines, edit, delta) <==> IsCorrection(lines, edit, delta)
  {
    hide CloserOnly, IsCloserLine, Balanced, InGrammar, Join;
    forall i | 0 <= i < |lines| ensures CloserOnly(lines[i]) <==> IsCloserLine(lines[i]) {
      CloserLines(lines[i]);
    }
    if edit.start < edit.end + delta <= |lines| {
      BalancedIsGrammar(EditedText(lines, edit.(end := edit.end + delta)));
    }
  }

  ghost predicate IsOnlyCorrection(lines: seq<string>, edit: ResolvedEdit, delta: int) {
    IsCorrection(lines, edit, delta) && forall d :: IsCorrection(lines, edit, d) ==> d == delta
  }

  /** The end is corrected if exactly one correction is possible; none leaves it alone, several are an error. */
  lemma {:induction false} CorrectsTheEnd(lines: seq<string>, edit: ResolvedEdit, delta: int, other: int)
    requires InRange(edit, |lines|)
    ensures IsOnlyCorrection(lines, edit, delta) ==>
              Snap(lines, edit) == Ok(Some(edit.(end := edit.end + delta,
                                                 result := edit.result.(appliedEnd := edit.end + delta, adjusted := true))))
    ensures (forall d :: !IsCorrection(lines, edit, d)) ==> Snap(lines, edit) == Ok(None)
    ensures delta != other && IsCorrection(lines, edit, delta) && IsCorrection(lines, edit, other) ==>
              Snap(lines, edit) == Err(SnapAmbiguous)
  {
    hide CanSnap, IsCorrection;
    forall d ensures CanSnap(lines, edit, d) <==> IsCorrection(lines, edit, d) {
      CorrectionsAreSnaps(lines, edit, d);
    }
    if IsOnlyCorrection(lines, edit, delta) {
      assert UniqueSnap(lines, edit, delta);
      assert edit.end + delta >= 0 by {
        CorrectionIsInside(lines, edit, delta);
      }
    }
  }

  lemma {:induction false} CorrectionIsInside(lines: seq<string>, edit: ResolvedEdit, delta: int)
    requires IsCorrection(lines, edit, delta)
    ensures edit.start < edit.end + delta <= |lines|
  {
  }

  // ----- When a batch succeeds -----

  /** A path that is not blank, and for a rewrite, or an edit without spans, a line and a text; line ranges in order. */
  ghost predicate IsSound(m: Mutation) {
    && (exists i :: 0 <= i < |m.path| && !IsWhite(m.path[i]))
    && (m.verb.EditVerb? || m.verb.RewriteVerb?)
    && (m.verb.RewriteVerb? || |m.spans| == 0 ==> m.startLine >= 1 && m.newString.Some?)
    && (m.verb.EditVerb? ==>
          && (m.endLine == 0 || m.startLine <= m.endLine)
          && forall i :: 0 <= i < |m.spans| ==>
               1 <= m.spans[i].startLine && (m.spans[i].endLine == 0 || m.spans[i].startLine <= m.spans[i].endLine))
  }

  lemma {:induction false} BlankIsTrimmed(s: string)
    ensures Trim(s, IsSpace) == "" <==> forall i :: 0 <= i < |s| ==> IsSpace(s[i])
  {
    var p, q := Trimmed(s, IsSpace);
    if forall i :: 0 <= i < |s| ==> IsSpace(s[i]) {
      assert s == s + "" + "";
      TrimOf(s, "", "", IsSpace);
    }
  }

  lemma {:induction false} SoundIsValid(m: Mutation)
    ensures Valid(m) <==> IsSound(m)
  {
    BlankIsTrimmed(m.path);
    WhiteSpace(m.path);
  }

  ghost predicate Resolves(lines: seq<string>, span: Span) {
    exists start, end :: IsStart(lines, span, start) && IsEnd(lines, span, start, end)
  }

  lemma {:induction false} ResolvesIfOk(lines: seq<string>, span: Span)
    ensures Resolve(lines, span).Ok? <==> Resolves(lines, span)
  {
    hide Resolve, IsStart, IsEnd;
    if Resolve(lines, span).Ok? {
      var edit := Resolve(lines, span).value;
      ResolvesAsAsked(lines, span, edit.start, edit.end);
    }
    if Resolves(lines, span) {
      var start, end :| IsStart(lines, span, start) && IsEnd(lines, span, start, end);
      ResolvesAsAsked(lines, span, start, end);
    }
  }

  lemma {:induction false} AllResolve(lines: seq<string>, spans: seq<Span>)
    ensures ResolveSpans(lines, spans).Ok? <==> forall span :: span in spans ==> Resolves(lines, span)
  {
    hide Resolve, Resolves;
    if |spans| > 0 {
      ResolvesIfOk(lines, spans[0]);
      AllResolve(lines, spans[1..]);
      assert spans == [spans[0]] + spans[1..];
    }
  }

  /** The text that a batch without a correction gives, before the line ends are put back. */
  ghost function PlainResult(lines: seq<string>, mutations: seq<Mutation>): string
    requires Collect(lines, mutations).Ok? && NoOverlap(Sort(Collect(lines, mutations).value))
  {
    SortedInOrder(lines, mutations);
    Join(Spliced(lines, Sort(Collect(lines, mutations).value), 0))
  }

  /** What is asked of the text: nothing if every mutation says so, or that it is in the grammar, perhaps after a correction. */
  ghost predicate IsAcceptable(lines: seq<string>, mutations: seq<Mutation>)
    requires Collect(lines, mutations).Ok? && NoOverlap(Sort(Collect(lines, mutations).value))
  {
    var edits := Collect(lines, mutations).value;
    || (forall i :: 0 <= i < |mutations| ==> mutations[i].allowUnbalanced)
    || InGrammar(PlainResult(lines, mutations))
    || (|edits| == 1 && InGrammar(Join(edits[0].replacement)) && exists delta :: IsOnlyCorrection(lines, edits[0], delta))
  }

  lemma {:induction false} AcceptableSettles(lines: seq<string>, mutations: seq<Mutation>)
    requires Collect(lines, mutations).Ok? && NoOverlap(Sort(Collect(lines, mutations).value))
    ensures FinalEdits(lines, mutations).Ok? <==> IsAcceptable(lines, mutations)
  {
    hide IsOnlyCorrection, InGrammar, Balanced, Collect, Join, Spliced, Resolve;
    var edits := Collect(lines, mutations).value;
    SortedInOrder(lines, mutations);
    CollectedInRange(lines, mutations);
    var sorted := Sort(edits);
    BalancedIsGrammar(PlainResult(lines, mutations));
    SortSorts(edits);
    OneSorted(edits);
    if |edits| == 1 {
      BalancedIsGrammar(Join(edits[0].replacement));
      SnapsIfOnlyOne(lines, edits[0]);
    }
  }

  lemma {:induction false} OneSorted(edits: seq<ResolvedEdit>)
    ensures |Sort(edits)| == |edits| && (|edits| == 1 ==> Sort(edits) == edits)
  {
    SortSorts(edits);
    assert |multiset(edits)| == |edits| && |multiset(Sort(edits))| == |Sort(edits)|;
    if |edits| == 1 {
      assert edits[1..] == [] && Sort([]) == [] && edits == [edits[0]];
    }
  }

  lemma {:induction false} SnapsIfOnlyOne(lines: seq<string>, edit: ResolvedEdit)
    requires InRange(edit, |lines|)
    ensures (Snap(lines, edit).Ok? && Snap(lines, edit).value.Some?) <==> exists delta :: IsOnlyCorrection(lines, edit, delta)
  {
    hide CanSnap, IsCorrection;
    forall d ensures CanSnap(lines, edit, d) <==> IsCorrection(lines, edit, d) {
      CorrectionsAreSnaps(lines, edit, d);
    }
    if delta :| UniqueSnap(lines, edit, delta) {
      assert IsOnlyCorrection(lines, edit, delta);
    }
    if delta :| IsOnlyCorrection(lines, edit, delta) {
      assert UniqueSnap(lines, edit, delta);
    }
  }

  /**
   A batch succeeds exactly when it is not empty, all its mutations are sound, all its spans can be resolved, no two of
   them share a line, and the text is acceptable; the other conditions, which the later ones need, follow from these.
   */
  lemma {:induction false} SucceedsExactly(mutations: seq<Mutation>, preimage: string)
    ensures var lines := Split(FoldCrlf(preimage));
            Transformed(mutations, preimage).Ok?
            <==> (&& |mutations| > 0
                  && (forall i :: 0 <= i < |mutations| ==> IsSound(mutations[i]))
                  && AllValid(mutations)
                  && (forall span :: span in AllSpans(mutations) ==> Resolves(lines, span))
                  && Collect(lines, mutations).Ok?
                  && !SomeOverlap(Collect(lines, mutations).value)
                  && NoOverlap(Sort(Collect(lines, mutations).value))
                  && IsAcceptable(lines, mutations))
    ensures (forall i :: 0 <= i < |mutations| ==> IsSound(mutations[i])) ==> AllValid(mutations)
    ensures var lines := Split(FoldCrlf(preimage));
            AllValid(mutations) ==>
              && ((forall span :: span in AllSpans(mutations) ==> Resolves(lines, span)) ==> Collect(lines, mutations).Ok?)
              && (Collect(lines, mutations).Ok? && !SomeOverlap(Collect(lines, mutations).value) ==>
                    NoOverlap(Sort(Collect(lines, mutations).value)))
  {
    hide IsSound, Valid, Resolves, IsAcceptable, SomeOverlap, Split, FoldCrlf, Resolve, Settle;
    var lines := Split(FoldCrlf(preimage));
    forall i | 0 <= i < |mutations| ensures Valid(mutations[i]) <==> IsSound(mutations[i]) {
      SoundIsValid(mutations[i]);
    }
    if AllValid(mutations) {
      CollectIsResolve(lines, mutations);
      AllResolve(lines, AllSpans(mutations));
    } else {
      InvalidFails(lines, mutations);
    }
    if Collect(lines, mutations).Ok? {
      var edits := Collect(lines, mutations).value;
      CollectedInRange(lines, mutations);
      OverlapIsOrderless(edits, |lines|);
      if NoOverlap(Sort(edits)) {
        AcceptableSettles(lines, mutations);
      }
    }
  }

  predicate Share(a: ResolvedEdit, b: ResolvedEdit) {
    a.start < b.end && b.start < a.end
  }

  ghost predicate SharesAny(edit: ResolvedEdit, edits: seq<ResolvedEdit>) {
    exists other :: other in edits && Share(edit, other)
  }

  predicate SharedAt(edits: seq<ResolvedEdit>, i: nat, j: nat) {
    i < j < |edits| && Share(edits[i], edits[j])
  }

  lemma {:induction false} OverlapAt(edits: seq<ResolvedEdit>)
    ensures SomeOverlap(edits) <==> exists i: nat, j: nat :: SharedAt(edits, i, j)
  {
    if i: nat, j: nat :| SharedAt(edits, i, j) {
      assert 0 <= i < j < |edits| && edits[i].start < edits[j].end && edits[j].start < edits[i].end;
    }
    if SomeOverlap(edits) {
      var i, j :| 0 <= i < j < |edits| && edits[i].start < edits[j].end && edits[j].start < edits[i].end;
      assert SharedAt(edits, i, j);
    }
  }

  lemma {:induction false} SharedBehind(edits: seq<ResolvedEdit>, i: nat, j: nat)
    requires |edits| > 0
    ensures SharedAt(edits, i + 1, j + 1) <==> SharedAt(edits[1..], i, j)
  {
    hide Share;
  }

  lemma {:induction false} SharedAtFirst(edits: seq<ResolvedEdit>)
    requires |edits| > 0
    ensures SharesAny(edits[0], edits[1..]) <==> exists j: nat :: SharedAt(edits, 0, j)
  {
    hide Share;
    if SharesAny(edits[0], edits[1..]) {
      var other :| other in edits[1..] && Share(edits[0], other);
      var j: nat :| j < |edits[1..]| && edits[1..][j] == other;
      assert SharedAt(edits, 0, j + 1);
    }
    if j: nat :| SharedAt(edits, 0, j) {
      assert edits[1..][j - 1] == edits[j];
    }
  }

  lemma {:induction false} FirstOrRest(edits: seq<ResolvedEdit>)
    requires |edits| > 0
    ensures SomeOverlap(edits) <==> SharesAny(edits[0], edits[1..]) || SomeOverlap(edits[1..])
  {
    OverlapAt(edits);
    OverlapAt(edits[1..]);
    SharedAtFirst(edits);
    if i: nat, j: nat :| SharedAt(edits, i, j) {
      assert i < j;
      hide *;
      if i > 0 {
        SharedBehind(edits, i - 1, j - 1);
      }
    }
    if i: nat, j: nat :| SharedAt(edits[1..], i, j) {
      hide *;
      SharedBehind(edits, i, j);
    }
  }

  lemma {:induction false} InsertedOverlap(edit: ResolvedEdit, edits: seq<ResolvedEdit>)
    ensures SomeOverlap(Splice.Insert(edit, edits)) <==> SharesAny(edit, edits) || SomeOverlap(edits)
    ensures forall e :: e in Splice.Insert(edit, edits) <==> e == edit || e in edits
  {
    if |edits| == 0 || edit.start <= edits[0].start {
      assert ([edit] + edits)[0] == edit && ([edit] + edits)[1..] == edits;
      FirstOrRest([edit] + edits);
    } else {
      var rest := Splice.Insert(edit, edits[1..]);
      var all := [edits[0]] + rest;
      assert all[0] == edits[0] && all[1..] == rest;
      assert edits == [edits[0]] + edits[1..];
      InsertedOverlap(edit, edits[1..]);
      FirstOrRest(all);
      FirstOrRest(edits);
      assert Share(edit, edits[0]) <==> Share(edits[0], edit);
      assert SharesAny(edits[0], rest) <==> Share(edits[0], edit) || SharesAny(edits[0], edits[1..]);
      assert SharesAny(edit, edits) <==> Share(edit, edits[0]) || SharesAny(edit, edits[1..]);
    }
  }

  lemma {:induction false} SortedOverlap(edits: seq<ResolvedEdit>)
    ensures SomeOverlap(Sort(edits)) <==> SomeOverlap(edits)
    ensures forall e :: e in Sort(edits) <==> e in edits
  {
    hide SomeOverlap, Share;
    if |edits| == 0 {
      assert Sort(edits) == edits;
    } else {
      SortedOverlap(edits[1..]);
      InsertedOverlap(edits[0], Sort(edits[1..]));
      FirstOrRest(edits);
      assert edits == [edits[0]] + edits[1..];
    }
  }

  lemma {:induction false} OverlapIsOrderless(edits: seq<ResolvedEdit>, n: nat)
    requires AllInRange(edits, n)
    ensures NoOverlap(Sort(edits)) <==> !SomeOverlap(edits)
  {
    SortSorts(edits);
    PermutedInRange(edits, Sort(edits), n);
    NeighboursSuffice(Sort(edits), n);
    SortedOverlap(edits);
  }

  // ----- What is applied, and what is reported -----

  /** A span of the mutation, or, if it has none, the one that its own fields name. */
  ghost predicate IsSpanOf(m: Mutation, span: Span) {
    || span in m.spans
    || (m.spans == [] && span.startLine == m.startLine && span.endLine == m.endLine && span.startGuard == m.startGuard
        && span.endGuard == m.endGuard && Some(span.newString) == m.newString)
  }

  lemma {:induction false} SpanOfOne(m: Mutation, span: Span)
    requires Valid(m)
    ensures span in SpansOf(m) <==> IsSpanOf(m, span)
  {
    if |m.spans| == 0 {
      assert span == SpansOf(m)[0] <==> IsSpanOf(m, span);
    }
  }

  lemma {:induction false} SpansAreAsked(mutations: seq<Mutation>, span: Span)
    requires AllValid(mutations)
    ensures span in AllSpans(mutations) <==> exists m :: m in mutations && IsSpanOf(m, span)
  {
    hide Valid;
    if |mutations| > 0 {
      SpansAreAsked(mutations[1..], span);
      assert mutations == [mutations[0]] + mutations[1..];
      SpanOfOne(mutations[0], span);
      hide IsSpanOf;
    }
  }

  lemma {:induction false} ResultsAt(edits: seq<ResolvedEdit>)
    ensures |Results(edits)| == |edits| && forall i :: 0 <= i < |edits| ==> Results(edits)[i] == edits[i].result
  {
    if |edits| > 0 {
      ResultsAt(edits[1..]);
    }
  }

  lemma {:induction false} AsManyAsSpans(lines: seq<string>, spans: seq<Span>)
    requires ResolveSpans(lines, spans).Ok?
    ensures |ResolveSpans(lines, spans).value| == |spans|
  {
    hide Resolve;
    if |spans| > 0 {
      AsManyAsSpans(lines, spans[1..]);
    }
  }

  /** The report has one entry for every span of the batch, in the order of the lines, and says where it was applied. */
  lemma {:induction false} ReportTells(mutations: seq<Mutation>, preimage: string)
    requires Transformed(mutations, preimage).Ok?
    ensures var lines, report := Split(FoldCrlf(preimage)), Transformed(mutations, preimage).value.1;
            && AllValid(mutations) && |report| == |AllSpans(mutations)|
            && FinalEdits(lines, mutations).Ok?
            && var edits := FinalEdits(lines, mutations).value;
               && |edits| == |report|
               && (forall i :: 0 <= i < |report| ==>
                     && edits[i].result == report[i]
                     && report[i].appliedStart == edits[i].start + 1 && report[i].appliedEnd == edits[i].end)
               && forall i, j :: 0 <= i < j < |report| ==> report[i].appliedEnd < report[j].appliedStart
  {
    hide Resolve, Valid, Settle, Split, FoldCrlf, WithLineEnds, Collect;
    var lines := Split(FoldCrlf(preimage));
    var edits := FinalEdits(lines, mutations).value;
    if !AllValid(mutations) {
      InvalidFails(lines, mutations);
    }
    CollectIsResolve(lines, mutations);
    AsManyAsSpans(lines, AllSpans(mutations));
    SortKeepsCount(Collect(lines, mutations).value);
    OnlyTheEndMoves(lines, mutations);
    ResultsAt(edits);
    forall i | 0 <= i < |edits| ensures edits[i].result.appliedStart == edits[i].start + 1 && edits[i].result.appliedEnd == edits[i].end {
      AppliedEditsAreGuarded(lines, mutations, edits[i]);
    }
    OrderedPairs(edits, 0, |lines|);
  }

  lemma {:induction false} SortKeepsCount(edits: seq<ResolvedEdit>)
    ensures |Sort(edits)| == |edits|
  {
    OneSorted(edits);
  }

  lemma {:induction false} OrderedPairs(edits: seq<ResolvedEdit>, from: nat, n: nat)
    requires InOrder(edits, from, n)
    ensures forall i, j :: 0 <= i < j < |edits| ==> edits[i].end <= edits[j].start
    ensures forall i :: 0 <= i < |edits| ==> from <= edits[i].start
  {
    if |edits| > 0 {
      OrderedPairs(edits[1..], edits[0].end, n);
      assert forall j :: 0 < j < |edits| ==> edits[j] == edits[1..][j - 1];
    }
  }
}
