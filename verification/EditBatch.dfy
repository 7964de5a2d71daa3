/** A batch of edits: spans resolved against one preimage, checked for overlap, spliced, and checked for balance. */
module EditBatch {
  import opened Text
  import opened Brackets
  import opened Splice
  import opened EditEngine

  // ----- Collecting the spans -----

  predicate ValidSpan(span: Span) {
    span.startLine >= 1 && (span.endLine == 0 || span.endLine >= span.startLine)
  }

  /** `Mutation.Validate` for the two verbs of the edit engine. */
  predicate Valid(m: Mutation) {
    && Trim(m.path, IsSpace) != ""
    && match m.verb
       case EditVerb =>
         && (|m.spans| == 0 ==> m.startLine >= 1 && m.newString.Some?)
         && (forall i :: 0 <= i < |m.spans| ==> ValidSpan(m.spans[i]))
         && (m.endLine == 0 || m.endLine >= m.startLine)
       case RewriteVerb => m.startLine >= 1 && m.newString.Some?
       case OtherVerb => false
  }

  function SpansOf(m: Mutation): seq<Span>
    requires Valid(m)
  {
    if |m.spans| > 0 then m.spans
    else [Span(m.startLine, m.endLine, m.startGuard, m.endGuard, m.newString.value)]
  }

  ghost function After(done: seq<ResolvedEdit>, r: Result<seq<ResolvedEdit>, Error>): Result<seq<ResolvedEdit>, Error> {
    if r.Ok? then Ok(done + r.value) else r
  }

  ghost function ResolveSpans(lines: seq<string>, spans: seq<Span>): Result<seq<ResolvedEdit>, Error> {
    if |spans| == 0 then Ok([])
    else
      var first := Resolve(lines, spans[0]);
      if first.Err? then Err(first.error) else After([first.value], ResolveSpans(lines, spans[1..]))
  }

  ghost function Collect(lines: seq<string>, mutations: seq<Mutation>): Result<seq<ResolvedEdit>, Error> {
    if |mutations| == 0 then Ok([])
    else if mutations[0].verb.OtherVerb? then Err(MixedVerb)
    else if !Valid(mutations[0]) then Err(Invalid)
    else
      var first := ResolveSpans(lines, SpansOf(mutations[0]));
      if first.Err? then first else After(first.value, Collect(lines, mutations[1..]))
  }

  lemma {:induction false} AfterTwice(a: seq<ResolvedEdit>, b: seq<ResolvedEdit>, r: Result<seq<ResolvedEdit>, Error>)
    ensures After(a, After(b, r)) == After(a + b, r)
  {
    if r.Ok? { Regroup3(a, b, r.value); }
  }

  method ResolveAll(lines: seq<string>, spans: seq<Span>, before: seq<ResolvedEdit>) returns (r: Result<seq<ResolvedEdit>, Error>)
    ensures r == After(before, ResolveSpans(lines, spans))
  {
    var edits := before;
    assert spans[0..] == spans;
    for i := 0 to |spans|
      invariant After(before, ResolveSpans(lines, spans)) == After(edits, ResolveSpans(lines, spans[i..]))
    {
      assert spans[i..][0] == spans[i] && spans[i..][1..] == spans[i + 1..];
      var edit := ResolveSpan(lines, spans[i]);
      if edit.Err? {
        return Err(edit.error);
      }
      AfterTwice(edits, [edit.value], ResolveSpans(lines, spans[i + 1..]));
      edits := edits + [edit.value];
    }
    EmptyTail(edits);
    return Ok(edits);
  }

  lemma {:induction false} EmptyTail<T>(s: seq<T>)
    ensures s + [] == s
  {
  }

  method CollectEdits(lines: seq<string>, mutations: seq<Mutation>) returns (r: Result<seq<ResolvedEdit>, Error>)
    ensures r == Collect(lines, mutations)
  {
    var edits := [];
    assert mutations[0..] == mutations;
    AfterNothing(Collect(lines, mutations));
    for i := 0 to |mutations|
      invariant Collect(lines, mutations) == After(edits, Collect(lines, mutations[i..]))
    {
      var mutation := mutations[i];
      assert mutations[i..][0] == mutation && mutations[i..][1..] == mutations[i + 1..];
      if mutation.verb.OtherVerb? {
        return Err(MixedVerb);
      }
      if !Valid(mutation) {
        return Err(Invalid);
      }
      var more := ResolveAll(lines, SpansOf(mutation), edits);
      if more.Err? {
        return more;
      }
      AfterTwice(edits, ResolveSpans(lines, SpansOf(mutation)).value, Collect(lines, mutations[i + 1..]));
      edits := more.value;
    }
    EmptyTail(edits);
    return Ok(edits);
  }

  lemma {:induction false} AfterNothing(r: Result<seq<ResolvedEdit>, Error>)
    ensures After([], r) == r
  {
    if r.Ok? { EmptyConcat([], r.value); }
  }

  lemma {:induction false} ResolvedInRange(lines: seq<string>, spans: seq<Span>)
    ensures var r := ResolveSpans(lines, spans); r.Ok? ==> AllInRange(r.value, |lines|)
  {
    if |spans| > 0 {
      ResolvedInRange(lines, spans[1..]);
    }
  }

  lemma {:induction false} CollectedInRange(lines: seq<string>, mutations: seq<Mutation>)
    ensures var r := Collect(lines, mutations); r.Ok? ==> AllInRange(r.value, |lines|)
  {
    if |mutations| > 0 && Valid(mutations[0]) {
      ResolvedInRange(lines, SpansOf(mutations[0]));
      CollectedInRange(lines, mutations[1..]);
    }
  }

  // ----- The whole transformation -----

  predicate AllAllow(mutations: seq<Mutation>) {
    forall i :: 0 <= i < |mutations| ==> mutations[i].allowUnbalanced
  }

  predicate HasCrlf(s: string) {
    exists i :: 0 <= i < |s| - 1 && s[i] == '\r' && s[i + 1] == '\n'
  }

  /** The line ends of the preimage, put back. */
  function WithLineEnds(preimage: string, text: string): string {
    if HasCrlf(preimage) then ToCrlf(text) else text
  }

  /** The edits as they are applied in the end: those given, or the only one with its end corrected. */
  ghost function Settle(lines: seq<string>, edits: seq<ResolvedEdit>, allow: bool): (r: Result<seq<ResolvedEdit>, Error>)
    requires InOrder(edits, 0, |lines|)
    ensures r.Ok? ==> InOrder(r.value, 0, |lines|)
  {
    if allow || Balanced(Join(Spliced(lines, edits, 0))) then Ok(edits)
    else if |edits| != 1 || !Balanced(Join(edits[0].replacement)) then Err(Unbalanced)
    else
      var snap := Snap(lines, edits[0]);
      if snap.Err? then Err(snap.error)
      else if snap.value.None? then Err(UnbalancedNearEnd)
      else Ok([snap.value.value])
  }

  ghost function FinalEdits(lines: seq<string>, mutations: seq<Mutation>): (r: Result<seq<ResolvedEdit>, Error>)
    ensures r.Ok? ==> InOrder(r.value, 0, |lines|)
  {
    var edits := Collect(lines, mutations);
    if edits.Err? then edits
    else if !NoOverlap(Sort(edits.value)) then Err(Overlap)
    else
      SortedInOrder(lines, mutations);
      Settle(lines, Sort(edits.value), AllAllow(mutations))
  }

  lemma {:induction false} SortedInOrder(lines: seq<string>, mutations: seq<Mutation>)
    requires Collect(lines, mutations).Ok? && NoOverlap(Sort(Collect(lines, mutations).value))
    ensures InOrder(Sort(Collect(lines, mutations).value), 0, |lines|)
  {
    var edits := Collect(lines, mutations).value;
    CollectedInRange(lines, mutations);
    SortSorts(edits);
    PermutedInRange(edits, Sort(edits), |lines|);
    NoOverlapIsInOrder(Sort(edits), 0, |lines|);
  }

  function Results(edits: seq<ResolvedEdit>): seq<SpanResult> {
    if |edits| == 0 then [] else [edits[0].result] + Results(edits[1..])
  }

  /** All spans replaced at once, in one ascending pass over the lines of the preimage. */
  ghost function Transformed(mutations: seq<Mutation>, preimage: string): Result<(string, seq<SpanResult>), Error> {
    if |mutations| == 0 then Err(NoEdits)
    else
      var lines := Split(FoldCrlf(preimage));
      var edits := FinalEdits(lines, mutations);
      if edits.Err? then Err(edits.error)
      else Ok((WithLineEnds(preimage, Join(Spliced(lines, edits.value, 0))), Results(edits.value)))
  }

  lemma {:induction false} OneEdit(lines: seq<string>, edit: ResolvedEdit)
    requires InRange(edit, |lines|)
    ensures InOrder([edit], 0, |lines|)
    ensures Spliced(lines, [edit], 0) == ReplaceLines(lines, edit.start, edit.end, edit.replacement)
  {
    assert [edit][1..] == [];
    Regroup3(lines[..edit.start], edit.replacement, lines[edit.end..]);
    assert Spliced(lines, [], edit.end) == lines[edit.end..];
    assert lines[0..edit.start] == lines[..edit.start];
  }

  method ContainsCrlf(s: string) returns (found: bool)
    ensures found == HasCrlf(s)
  {
    var i := 1;
    while i < |s|
      invariant 1 <= i && forall j :: 0 <= j < i - 1 && j < |s| - 1 ==> !(s[j] == '\r' && s[j + 1] == '\n')
    {
      if s[i - 1] == '\r' && s[i] == '\n' {
        return true;
      }
      i := i + 1;
    }
    return false;
  }

  method CollectResults(edits: seq<ResolvedEdit>) returns (results: seq<SpanResult>)
    ensures results == Results(edits)
  {
    results := [];
    assert edits[0..] == edits;
    for i := 0 to |edits|
      invariant results + Results(edits[i..]) == Results(edits)
    {
      assert edits[i..][0] == edits[i] && edits[i..][1..] == edits[i + 1..];
      Regroup3(results, [edits[i].result], Results(edits[i + 1..]));
      results := results + [edits[i].result];
    }
    EmptyTail(results);
  }

  method AllowsUnbalanced(mutations: seq<Mutation>) returns (allow: bool)
    ensures allow == AllAllow(mutations)
  {
    allow := true;
    for i := 0 to |mutations|
      invariant allow == AllAllow(mutations[..i])
    {
      assert mutations[..i + 1] == mutations[..i] + [mutations[i]];
      if !mutations[i].allowUnbalanced {
        allow := false;
      }
    }
    assert mutations[..|mutations|] == mutations;
  }

  /** The balance check and, for a single edit, the correction. */
  method SettleEdits(lines: seq<string>, edits: seq<ResolvedEdit>, allow: bool)
    returns (r: Result<(string, seq<ResolvedEdit>), Error>)
    requires InOrder(edits, 0, |lines|)
    ensures var settled := Settle(lines, edits, allow);
            r == if settled.Err? then Err(settled.error) else Ok((Join(Spliced(lines, settled.value, 0)), settled.value))
  {
    var candidateLines := ApplyBottomUp(lines, edits);
    var candidate := Join(candidateLines);
    if !allow {
      var balanced := IsBalanced(candidate);
      if !balanced {
        if |edits| != 1 {
          return Err(Unbalanced);
        }
        var replacement := IsBalanced(Join(edits[0].replacement));
        if !replacement {
          return Err(Unbalanced);
        }
        var adjusted := AutoSnap(lines, edits[0]);
        if adjusted.Err? {
          return Err(adjusted.error);
        }
        if adjusted.value.None? {
          return Err(UnbalancedNearEnd);
        }
        var edit := adjusted.value.value;
        OneEdit(lines, edit);
        return Ok((Join(ReplaceLines(lines, edit.start, edit.end, edit.replacement)), [edit]));
      }
    }
    return Ok((candidate, edits));
  }

  method TransformEdits(mutations: seq<Mutation>, preimage: string) returns (r: Result<(string, seq<SpanResult>), Error>)
    ensures r == Transformed(mutations, preimage)
  {
    if |mutations| == 0 {
      return Err(NoEdits);
    }
    var crlf := ContainsCrlf(preimage);
    var lines := Split(FoldCrlf(preimage));
    var collected := CollectEdits(lines, mutations);
    if collected.Err? {
      return Err(collected.error);
    }
    var allow := AllowsUnbalanced(mutations);
    var edits := Sort(collected.value);
    var index := 1;
    while index < |edits|
      invariant 1 <= index && forall i :: 1 <= i < index && i < |edits| ==> edits[i - 1].end <= edits[i].start
    {
      if edits[index].start < edits[index - 1].end {
        return Err(Overlap);
      }
      index := index + 1;
    }
    SortedInOrder(lines, mutations);
    var settled := SettleEdits(lines, edits, allow);
    if settled.Err? {
      return Err(settled.error);
    }
    var candidate := settled.value.0;
    if crlf {
      candidate := ToCrlf(candidate);
    }
    var results := CollectResults(settled.value.1);
    return Ok((candidate, results));
  }

  // ----- Balance -----

  lemma {:induction false} LineEndsKeepBalance(preimage: string, text: string)
    requires Balanced(text)
    ensures InGrammar(WithLineEnds(preimage, text))
  {
    CrlfKeepsBalance(text);
    BalancedIsGrammar(WithLineEnds(preimage, text));
  }

  /**
   Unless every mutation of the batch allows unbalanced text, what comes out is balanced text of the grammar,
   line ends included.
   */
  lemma {:induction false} OutputIsBalanced(mutations: seq<Mutation>, preimage: string)
    requires Transformed(mutations, preimage).Ok?
    requires exists i :: 0 <= i < |mutations| && !mutations[i].allowUnbalanced
    ensures InGrammar(Transformed(mutations, preimage).value.0)
  {
    var lines := Split(FoldCrlf(preimage));
    SortedInOrder(lines, mutations);
    SettledIsBalanced(lines, Sort(Collect(lines, mutations).value));
    LineEndsKeepBalance(preimage, Join(Spliced(lines, FinalEdits(lines, mutations).value, 0)));
  }

  lemma {:induction false} SettledIsBalanced(lines: seq<string>, edits: seq<ResolvedEdit>)
    requires InOrder(edits, 0, |lines|) && Settle(lines, edits, false).Ok?
    ensures Balanced(Join(Spliced(lines, Settle(lines, edits, false).value, 0)))
  {
    if !Balanced(Join(Spliced(lines, edits, 0))) {
      OneEdit(lines, Snap(lines, edits[0]).value.value);
    }
  }

  /** The one way in which the edits applied differ from those resolved: a single end, moved by UniqueSnap. */
  lemma {:induction false} OnlyTheEndMoves(lines: seq<string>, mutations: seq<Mutation>)
    requires FinalEdits(lines, mutations).Ok?
    ensures var resolved, final := Sort(Collect(lines, mutations).value), FinalEdits(lines, mutations).value;
            || final == resolved
            || (&& (exists i :: 0 <= i < |mutations| && !mutations[i].allowUnbalanced)
                && |resolved| == 1 && |final| == 1 && InRange(resolved[0], |lines|)
                && !Balanced(EditedText(lines, resolved[0]))
                && exists delta :: UniqueSnap(lines, resolved[0], delta) && final[0] == Snapped(resolved[0], delta))
  {
    var resolved := Sort(Collect(lines, mutations).value);
    SortedInOrder(lines, mutations);
    if |resolved| == 1 {
      OneEdit(lines, resolved[0]);
    }
  }

  // ----- The order of the spans -----

  function AllSpans(mutations: seq<Mutation>): seq<Span>
    requires AllValid(mutations)
  {
    if |mutations| == 0 then [] else SpansOf(mutations[0]) + AllSpans(mutations[1..])
  }

  predicate AllValid(mutations: seq<Mutation>) {
    forall i :: 0 <= i < |mutations| ==> Valid(mutations[i])
  }

  lemma {:induction false} ResolveConcat(lines: seq<string>, a: seq<Span>, b: seq<Span>)
    ensures ResolveSpans(lines, a + b)
         == var first := ResolveSpans(lines, a); if first.Err? then first else After(first.value, ResolveSpans(lines, b))
  {
    if |a| == 0 {
      EmptyConcat(a, b);
      AfterNothing(ResolveSpans(lines, b));
    } else {
      TailOfConcat(a, b);
      ResolveConcat(lines, a[1..], b);
      var first, rest := Resolve(lines, a[0]), ResolveSpans(lines, a[1..]);
      if first.Ok? && rest.Ok? {
        AfterTwice([first.value], rest.value, ResolveSpans(lines, b));
      }
    }
  }

  lemma {:induction false} CollectIsResolve(lines: seq<string>, mutations: seq<Mutation>)
    requires AllValid(mutations)
    ensures Collect(lines, mutations) == ResolveSpans(lines, AllSpans(mutations))
  {
    if |mutations| > 0 {
      CollectIsResolve(lines, mutations[1..]);
      ResolveConcat(lines, SpansOf(mutations[0]), AllSpans(mutations[1..]));
    }
  }

  lemma {:induction false} InvalidFails(lines: seq<string>, mutations: seq<Mutation>)
    requires !AllValid(mutations)
    ensures Collect(lines, mutations).Err?
  {
    if Valid(mutations[0]) {
      assert forall i :: 1 <= i < |mutations| ==> mutations[i] == mutations[1..][i - 1];
      InvalidFails(lines, mutations[1..]);
    }
  }

  lemma {:induction false} ResolvedOneByOne(lines: seq<string>, spans: seq<Span>, edit: ResolvedEdit)
    requires ResolveSpans(lines, spans).Ok? && edit in ResolveSpans(lines, spans).value
    ensures exists span :: span in spans && Resolve(lines, span) == Ok(edit)
  {
    var first := Resolve(lines, spans[0]).value;
    if edit == first {
      assert spans[0] in spans;
    } else {
      assert edit in ResolveSpans(lines, spans[1..]).value;
      ResolvedOneByOne(lines, spans[1..], edit);
      var span :| span in spans[1..] && Resolve(lines, span) == Ok(edit);
      assert span in spans;
    }
  }

  /** The edit does what the span asks for, where its guards hold; a corrected end may have left its guard. */
  ghost predicate Answers(lines: seq<string>, span: Span, edit: ResolvedEdit) {
    && InRange(edit, |lines|)
    && edit.replacement == Split(FoldCrlf(span.newString))
    && edit.result.appliedStart == edit.start + 1 && edit.result.appliedEnd == edit.end
    && edit.result.requestedStart == span.startLine && edit.result.requestedEnd == span.endLine
    && (span.startGuard != "" ==> lines[edit.start] == span.startGuard)
    && (!edit.result.adjusted ==> GuardsHold(lines, span, edit.start, edit.end))
  }

  /** An edit that is applied is one that was collected, but perhaps for its end. */
  lemma {:induction false} AppliedWasCollected(lines: seq<string>, mutations: seq<Mutation>, edit: ResolvedEdit) returns (was: ResolvedEdit)
    requires FinalEdits(lines, mutations).Ok? && edit in FinalEdits(lines, mutations).value
    ensures Collect(lines, mutations).Ok? && was in Collect(lines, mutations).value
    ensures edit == was || (InRange(edit, |lines|) && edit == was.(end := edit.end, result := was.result.(appliedEnd := edit.end, adjusted := true)))
  {
    hide Collect, Sort, Balanced, Settle, Spliced;
    var collected := Collect(lines, mutations).value;
    var resolved, final := Sort(collected), FinalEdits(lines, mutations).value;
    OnlyTheEndMoves(lines, mutations);
    SortSorts(collected);
    was := if final == resolved then edit else resolved[0];
    assert was in multiset(resolved);
  }

  /** Every edit that is applied answers one of the spans of the batch. */
  lemma {:induction false} AppliedEditsAreGuarded(lines: seq<string>, mutations: seq<Mutation>, edit: ResolvedEdit)
    requires FinalEdits(lines, mutations).Ok? && edit in FinalEdits(lines, mutations).value
    ensures AllValid(mutations) && exists span :: span in AllSpans(mutations) && Answers(lines, span, edit)
  {
    hide Resolve, FinalEdits, Collect;
    var was := AppliedWasCollected(lines, mutations, edit);
    if !AllValid(mutations) {
      InvalidFails(lines, mutations);
    }
    CollectIsResolve(lines, mutations);
    ResolvedOneByOne(lines, AllSpans(mutations), was);
    var span :| span in AllSpans(mutations) && Resolve(lines, span) == Ok(was);
    ResolvedIsGuarded(lines, span);
    assert Answers(lines, span, edit);
  }

  /** Both fail, or both succeed with the same edits. */
  ghost predicate SameEdits(a: Result<seq<ResolvedEdit>, Error>, b: Result<seq<ResolvedEdit>, Error>) {
    a.Ok? == b.Ok? && (a.Ok? ==> multiset(a.value) == multiset(b.value))
  }

  lemma {:induction false} MoveToFront(lines: seq<string>, a: seq<Span>, x: Span, b: seq<Span>)
    ensures SameEdits(ResolveSpans(lines, a + ([x] + b)), ResolveSpans(lines, [x] + (a + b)))
  {
    ResolveConcat(lines, a, [x] + b);
    ResolveConcat(lines, [x], b);
    ResolveConcat(lines, [x], a + b);
    ResolveConcat(lines, a, b);
  }

  lemma {:induction false} ResolvePermuted(lines: seq<string>, a: seq<Span>, b: seq<Span>)
    requires multiset(a) == multiset(b)
    ensures SameEdits(ResolveSpans(lines, a), ResolveSpans(lines, b))
    decreases |a|
  {
    assert |multiset(a)| == |a| && |multiset(b)| == |b|;
    if |a| > 0 {
      assert a[0] in multiset(b);
      var j :| 0 <= j < |b| && b[j] == a[0];
      var front, back := b[..j], b[j + 1..];
      assert b == front + ([a[0]] + back);
      assert a == [a[0]] + a[1..];
      assert multiset(front + back) == multiset(front) + multiset(back);
      SameRest(a[0], multiset(a[1..]), multiset(front + back));
      ResolvePermuted(lines, a[1..], front + back);
      MoveToFront(lines, front, a[0], back);
      ResolveConcat(lines, [a[0]], a[1..]);
      ResolveConcat(lines, [a[0]], front + back);
    }
  }

  /**
   The order in which spans are supplied, and how they are spread over the mutations of the batch, does not matter:
   both batches fail, or both give the same text and the same report.
   */
  lemma {:induction false} SupplyOrderIsIrrelevant(a: seq<Mutation>, b: seq<Mutation>, preimage: string)
    requires |a| > 0 && |b| > 0 && AllAllow(a) == AllAllow(b)
    requires AllValid(a) && AllValid(b) && multiset(AllSpans(a)) == multiset(AllSpans(b))
    ensures Transformed(a, preimage).Ok? == Transformed(b, preimage).Ok?
    ensures Transformed(a, preimage).Ok? ==> Transformed(a, preimage) == Transformed(b, preimage)
  {
    var lines := Split(FoldCrlf(preimage));
    CollectIsResolve(lines, a);
    CollectIsResolve(lines, b);
    ResolvePermuted(lines, AllSpans(a), AllSpans(b));
    if Collect(lines, a).Ok? {
      CollectedInRange(lines, a);
      OrderIsIrrelevant(Collect(lines, a).value, Collect(lines, b).value, |lines|);
    }
  }

  // ----- The plainest edit -----

  /** One line, named by its number, gives way to the new text; all others stay. */
  lemma {:induction false} PlainEditReplacesOneLine(m: Mutation, preimage: string)
    requires Valid(m) && m.allowUnbalanced && m.spans == [] && m.endLine == 0 && m.startGuard == "" && m.endGuard == ""
    ensures var lines, k := Split(FoldCrlf(preimage)), m.startLine;
            && (Transformed([m], preimage).Ok? <==> k <= |lines|)
            && (k <= |lines| ==>
                  Transformed([m], preimage)
                  == Ok((WithLineEnds(preimage, Join(lines[..k - 1] + Split(FoldCrlf(m.newString.value)) + lines[k..])),
                         [SpanResult(k, 0, k, k, false, false)])))
  {
    hide Split, Join, FoldCrlf, Resolve, Balanced;
    var lines, k := Split(FoldCrlf(preimage)), m.startLine;
    var span := Span(k, 0, "", "", m.newString.value);
    PlainSpanIsOneLine(lines, span);
    assert [m][1..] == [] && [span][1..] == [] && SpansOf(m) == [span];
    OneSpanCollected(lines, m, span);
    if k <= |lines| {
      var edit := Resolve(lines, span).value;
      OneIsSorted(edit);
      OneEdit(lines, edit);
      assert AllAllow([m]) && FinalEdits(lines, [m]) == Ok([edit]);
      assert Results([edit][1..]) == [] && [edit.result] + [] == [edit.result];
    }
  }

  lemma {:induction false} OneIsSorted(edit: ResolvedEdit)
    ensures Sort([edit]) == [edit] && NoOverlap([edit])
  {
    assert [edit][1..] == [] && Sort([]) == [];
  }

  lemma {:induction false} OneSpanCollected(lines: seq<string>, m: Mutation, span: Span)
    requires Valid(m) && SpansOf(m) == [span]
    ensures var r := Resolve(lines, span); Collect(lines, [m]) == if r.Err? then Err(r.error) else Ok([r.value])
  {
    hide Resolve;
    assert [m][1..] == [] && [span][1..] == [];
    assert ResolveSpans(lines, []) == Ok([]) && Collect(lines, []) == Ok([]);
    if Resolve(lines, span).Ok? {
      EmptyTail([Resolve(lines, span).value]);
      assert ResolveSpans(lines, [span]) == Ok([Resolve(lines, span).value]);
    }
  }

  // ----- Line ends -----

  /** Every line feed follows a carriage return. */
  predicate OnlyCrlf(s: string) {
    forall i :: 0 <= i < |s| && s[i] == '\n' ==> i > 0 && s[i - 1] == '\r'
  }

  predicate NoCrlf(s: string) {
    forall i :: 0 <= i < |s| - 1 ==> !(s[i] == '\r' && s[i + 1] == '\n')
  }

  lemma {:induction false} FoldWithoutCrlf(s: string)
    requires NoCrlf(s)
    ensures FoldCrlf(s) == s
  {
    if s != "" {
      assert !(|s| >= 2 && s[0] == '\r' && s[1] == '\n');
      assert NoCrlf(s[1..]) by {
        forall i | 0 <= i < |s[1..]| - 1 ensures !(s[1..][i] == '\r' && s[1..][i + 1] == '\n') {
          assert s[1..][i] == s[i + 1] && s[1..][i + 1] == s[i + 2];
        }
      }
      FoldWithoutCrlf(s[1..]);
      assert s == [s[0]] + s[1..];
    }
  }

  lemma {:induction false} CrlfHead(rest: string)
    ensures ToCrlf("\n" + rest) == "\r\n" + ToCrlf(rest)
  {
    TailOfConcat("\n", rest);
    EmptyConcat("\n"[1..], rest);
  }

  lemma {:induction false} CrlfIsRestored(s: string)
    ensures ToCrlf(FoldCrlf(s)) == s <==> OnlyCrlf(s)
    decreases |s|
  {
    if s == "" {
    } else if |s| >= 2 && s[0] == '\r' && s[1] == '\n' {
      CrlfIsRestored(s[2..]);
      CrlfHead(FoldCrlf(s[2..]));
      assert s == "\r\n" + s[2..];
      OnlyCrlfAfterCrlf(s);
    } else {
      CrlfIsRestored(s[1..]);
      OnlyCrlfAfterOther(s);
      var rest := FoldCrlf(s[1..]);
      ScanHead(s[0], rest);
      assert s == [s[0]] + s[1..];
    }
  }

  lemma {:induction false} OnlyCrlfAfterCrlf(s: string)
    requires |s| >= 2 && s[0] == '\r' && s[1] == '\n'
    ensures OnlyCrlf(s) <==> OnlyCrlf(s[2..])
  {
    var t := s[2..];
    assert forall i :: 2 <= i < |s| ==> s[i] == t[i - 2];
    if OnlyCrlf(s) {
      forall i | 0 <= i < |t| && t[i] == '\n' ensures i > 0 && t[i - 1] == '\r' {
        assert s[i + 2] == '\n';
      }
    }
  }

  lemma {:induction false} OnlyCrlfAfterOther(s: string)
    requires |s| > 0 && !(|s| >= 2 && s[0] == '\r' && s[1] == '\n')
    ensures OnlyCrlf(s) <==> s[0] != '\n' && OnlyCrlf(s[1..])
  {
    var t := s[1..];
    assert forall i :: 1 <= i < |s| ==> s[i] == t[i - 1];
    if OnlyCrlf(s) {
      forall i | 0 <= i < |t| && t[i] == '\n' ensures i > 0 && t[i - 1] == '\r' {
        assert s[i + 1] == '\n';
      }
    }
  }

  /** Reading a file and writing it back with its line ends keeps it exactly when they are not mixed. */
  lemma {:induction false} UniformLineEndsSurvive(preimage: string)
    ensures WithLineEnds(preimage, Join(Split(FoldCrlf(preimage)))) == preimage <==> NoCrlf(preimage) || OnlyCrlf(preimage)
  {
    JoinSplit(FoldCrlf(preimage));
    if NoCrlf(preimage) {
      FoldWithoutCrlf(preimage);
    } else {
      CrlfIsRestored(preimage);
    }
  }

  /** The case there is: one line ends in a line feed and one in CRLF. */
  lemma {:induction false} MixedLineEndsChange()
    ensures WithLineEnds("\n\r\n", Join(Split(FoldCrlf("\n\r\n")))) == "\r\n\r\n"
  {
    hide Split, Join;
    var s := "\n\r\n";
    assert s[1] == '\r' && s[2] == '\n';
    JoinSplit(FoldCrlf(s));
    assert s[1..] == "\r\n" && "\r\n"[2..] == "";
    assert FoldCrlf(s) == "\n\n";
    CrlfHead("\n");
    CrlfHead("");
  }
}
