/**
 The edit engine: spans with guards resolved against one preimage, applied together, with the bracket check and
 its bounded correction of a span's end.  Characters are code points.
 */
module EditEngine {
  import opened Text
  import opened Brackets
  import opened Splice

  datatype Verb = EditVerb | RewriteVerb | OtherVerb

  datatype Span = Span(startLine: int, endLine: int, startGuard: string, endGuard: string, newString: string)

  /** The span of a mutation without a list of spans is `single`, present when new_string is given. */
  datatype Mutation = Mutation(path: string, verb: Verb, spans: seq<Span>, startLine: int, endLine: int,
                               startGuard: string, endGuard: string, newString: Option<string>, allowUnbalanced: bool)

  datatype Error =
    | NoEdits
    | MixedVerb
    | Invalid
    | StartTooSmall
    | StartOutside
    | StartGuardNotUnique
    | EndGuardNotFound
    | SpanOutside
    | EndGuardMismatch
    | Overlap
    | Unbalanced
    | UnbalancedNearEnd
    | SnapAmbiguous

  // ----- Guards -----

  /** The first line at or after `from` that equals x. */
  function FirstFrom(lines: seq<string>, from: nat, x: string): (found: Option<nat>)
    requires from <= |lines|
    ensures found.Some? ==> from <= found.value < |lines| && lines[found.value] == x
    ensures var last := if found.Some? then found.value else |lines|;
            forall i :: from <= i < last ==> lines[i] != x
    decreases |lines| - from
  {
    if from == |lines| then None
    else if lines[from] == x then Some(from)
    else FirstFrom(lines, from + 1, x)
  }

  method FindFrom(lines: seq<string>, from: nat, x: string) returns (found: Option<nat>)
    requires from <= |lines|
    ensures found == FirstFrom(lines, from, x)
  {
    for index := from to |lines|
      invariant FirstFrom(lines, from, x) == FirstFrom(lines, index, x)
    {
      if lines[index] == x {
        return Some(index);
      }
    }
    return None;
  }

  /** Line i is the start guard, and the end guard, if any, is there or further down. */
  predicate GuardAt(lines: seq<string>, start: string, end: string, i: nat) {
    i < |lines| && lines[i] == start && (end != "" ==> FirstFrom(lines, i, end).Some?)
  }

  ghost predicate UniqueGuard(lines: seq<string>, start: string, end: string, i: nat) {
    GuardAt(lines, start, end, i) && forall j :: GuardAt(lines, start, end, j) ==> j == i
  }

  ghost function TheGuard(lines: seq<string>, start: string, end: string): (found: Option<nat>)
    ensures found.Some? ==> UniqueGuard(lines, start, end, found.value)
    ensures found.None? ==> forall i :: !UniqueGuard(lines, start, end, i)
  {
    if i :| UniqueGuard(lines, start, end, i) then Some(i) else None
  }

  /** The only place of the guard, or nothing when it is missing or ambiguous. */
  method LocateGuard(lines: seq<string>, start: string, end: string) returns (found: Option<nat>)
    ensures found == TheGuard(lines, start, end)
  {
    found := None;
    for index := 0 to |lines|
      invariant found.Some? ==> found.value < index && GuardAt(lines, start, end, found.value)
      invariant forall j :: 0 <= j < index && GuardAt(lines, start, end, j) ==> found == Some(j)
    {
      if lines[index] != start {
        continue;
      }
      if end != "" {
        var cursor := FindFrom(lines, index, end);
        if cursor.None? {
          continue;
        }
      }
      if found.Some? {
        assert GuardAt(lines, start, end, found.value) && GuardAt(lines, start, end, index);
        return None;
      }
      found := Some(index);
    }
    assert found.Some? ==> UniqueGuard(lines, start, end, found.value);
  }

  // ----- Resolving one span -----

  /** Where the span starts, and whether the start guard moved it. */
  ghost function ResolveStart(lines: seq<string>, span: Span): (r: Result<(nat, bool), Error>)
    ensures r.Ok? ==> r.value.0 < |lines|
  {
    if span.startLine < 1 then Err(StartTooSmall)
    else if span.startLine > |lines| then Err(StartOutside)
    else if span.startGuard == "" || lines[span.startLine - 1] == span.startGuard then Ok((span.startLine - 1, false))
    else
      var found := TheGuard(lines, span.startGuard, span.endGuard);
      if found.Some? then Ok((found.value, true)) else Err(StartGuardNotUnique)
  }

  /** The end asked for, moved along with the start. */
  ghost function WantedEnd(lines: seq<string>, span: Span, start: nat, relocated: bool): Result<int, Error>
    requires start < |lines|
  {
    if span.endLine == 0 then
      if span.endGuard == "" then Ok(start + 1)
      else
        var found := FirstFrom(lines, start, span.endGuard);
        if found.Some? then Ok(found.value + 1) else Err(EndGuardNotFound)
    else if relocated then Ok(start + (span.endLine - (span.startLine - 1)))
    else Ok(span.endLine)
  }

  ghost function ResolveEnd(lines: seq<string>, span: Span, start: nat, relocated: bool): (r: Result<(nat, bool), Error>)
    requires start < |lines|
    ensures r.Ok? ==> start < r.value.0 <= |lines|
  {
    var wanted := WantedEnd(lines, span, start, relocated);
    if wanted.Err? then Err(wanted.error)
    else if wanted.value < start + 1 || wanted.value > |lines| then Err(SpanOutside)
    else if span.endGuard == "" || lines[wanted.value - 1] == span.endGuard then Ok((wanted.value, relocated))
    else
      var found := FirstFrom(lines, start, span.endGuard);
      if found.Some? then Ok((found.value + 1, true)) else Err(EndGuardMismatch)
  }

  ghost function Resolve(lines: seq<string>, span: Span): Result<ResolvedEdit, Error> {
    var start := ResolveStart(lines, span);
    if start.Err? then Err(start.error)
    else
      var end := ResolveEnd(lines, span, start.value.0, start.value.1);
      if end.Err? then Err(end.error)
      else Ok(ResolvedEdit(start.value.0, end.value.0, Split(FoldCrlf(span.newString)),
                           SpanResult(span.startLine, span.endLine, start.value.0 + 1, end.value.0, end.value.1, false)))
  }

  method ResolveSpan(lines: seq<string>, span: Span) returns (r: Result<ResolvedEdit, Error>)
    ensures r == Resolve(lines, span)
  {
    if span.startLine < 1 {
      return Err(StartTooSmall);
    }
    var start := span.startLine - 1;
    if start >= |lines| {
      return Err(StartOutside);
    }
    var relocated := false;
    if span.startGuard != "" && lines[start] != span.startGuard {
      var found := LocateGuard(lines, span.startGuard, span.endGuard);
      if found.None? {
        return Err(StartGuardNotUnique);
      }
      start, relocated := found.value, true;
    }
    var end := span.endLine;
    if end == 0 {
      if span.endGuard == "" {
        end := start + 1;
      } else {
        var found := FindFrom(lines, start, span.endGuard);
        if found.None? {
          return Err(EndGuardNotFound);
        }
        end := found.value + 1;
      }
    } else if relocated {
      var width := span.endLine - (span.startLine - 1);
      end := start + width;
    }
    if end < start + 1 || end > |lines| {
      return Err(SpanOutside);
    }
    if span.endGuard != "" && lines[end - 1] != span.endGuard {
      var found := FindFrom(lines, start, span.endGuard);
      if found.None? {
        return Err(EndGuardMismatch);
      }
      end := found.value + 1;
      relocated := true;
    }
    return Ok(ResolvedEdit(start, end, Split(FoldCrlf(span.newString)),
                           SpanResult(span.startLine, span.endLine, start + 1, end, relocated, false)));
  }

  /** The guards hold where the caller asked, or there is none. */
  predicate GuardsHold(lines: seq<string>, span: Span, start: nat, end: nat)
    requires start < end <= |lines|
  {
    (span.startGuard != "" ==> lines[start] == span.startGuard) && (span.endGuard != "" ==> lines[end - 1] == span.endGuard)
  }

  /** A resolved span lies in the file, its guards hold, and it says where it is. */
  lemma {:induction false} ResolvedIsGuarded(lines: seq<string>, span: Span)
    requires Resolve(lines, span).Ok?
    ensures var edit := Resolve(lines, span).value;
            && InRange(edit, |lines|) && GuardsHold(lines, span, edit.start, edit.end)
            && edit.replacement == Split(FoldCrlf(span.newString))
            && edit.result == SpanResult(span.startLine, span.endLine, edit.start + 1, edit.end, edit.result.relocated, false)
  {
  }

  /** The line is the start guard, and the end guard, if one is given, is there or further down. */
  ghost predicate HoldsGuards(lines: seq<string>, startGuard: string, endGuard: string, i: nat) {
    i < |lines| && lines[i] == startGuard && (|endGuard| > 0 ==> exists j :: i <= j < |lines| && lines[j] == endGuard)
  }

  ghost predicate IsOnlyPlace(lines: seq<string>, startGuard: string, endGuard: string, i: nat) {
    HoldsGuards(lines, startGuard, endGuard, i) && forall j :: HoldsGuards(lines, startGuard, endGuard, j) ==> j == i
  }

  lemma {:induction false} OnlyPlaceIsUnique(lines: seq<string>, startGuard: string, endGuard: string, i: nat)
    ensures IsOnlyPlace(lines, startGuard, endGuard, i) <==> UniqueGuard(lines, startGuard, endGuard, i)
  {
    forall j: nat ensures HoldsGuards(lines, startGuard, endGuard, j) <==> GuardAt(lines, startGuard, endGuard, j) {
      if j < |lines| {
        var found := FirstFrom(lines, j, endGuard);
        assert found.Some? ==> lines[found.value] == endGuard;
      }
    }
  }

  /** Where a span may start: at the line asked for, or, when that is not its guard, at the one place where the guards match. */
  ghost predicate IsStart(lines: seq<string>, span: Span, start: nat) {
    && 1 <= span.startLine <= |lines|
    && if span.startGuard == "" || lines[span.startLine - 1] == span.startGuard then start == span.startLine - 1
       else IsOnlyPlace(lines, span.startGuard, span.endGuard, start)
  }

  /** The lines from start on end with the first one that is x. */
  predicate EndsWithFirst(lines: seq<string>, start: nat, end: nat, x: string) {
    start < end <= |lines| && lines[end - 1] == x && forall i :: start <= i < end - 1 ==> lines[i] != x
  }

  /**
   Where it ends then.  Without an end line: after one line, or with the first end guard.  With one: as wide as was
   asked for, if it fits in and ends with the end guard or there is none; otherwise with the first end guard.
   */
  ghost predicate IsEnd(lines: seq<string>, span: Span, start: nat, end: nat) {
    var wanted := start + span.endLine - span.startLine + 1;
    && start < end <= |lines|
    && if span.endLine == 0 then
         if span.endGuard == "" then end == start + 1 else EndsWithFirst(lines, start, end, span.endGuard)
       else
         && start < wanted <= |lines|
         && if span.endGuard == "" || lines[wanted - 1] == span.endGuard then end == wanted
            else EndsWithFirst(lines, start, end, span.endGuard)
  }

  lemma {:induction false} FirstIsFirst(lines: seq<string>, start: nat, x: string)
    requires start <= |lines|
    ensures var found := FirstFrom(lines, start, x);
            forall end: nat :: EndsWithFirst(lines, start, end, x) <==> found.Some? && end == found.value + 1
  {
  }

  lemma {:induction false} StartIsResolved(lines: seq<string>, span: Span, start: nat)
    ensures var r := ResolveStart(lines, span); r.Ok? && r.value.0 == start <==> IsStart(lines, span, start)
    ensures var r := ResolveStart(lines, span);
            r.Ok? ==> (r.value.1 <==> span.startGuard != "" && lines[span.startLine - 1] != span.startGuard)
  {
    OnlyPlaceIsUnique(lines, span.startGuard, span.endGuard, start);
  }

  lemma {:induction false} EndIsResolved(lines: seq<string>, span: Span, start: nat, end: nat)
    requires IsStart(lines, span, start) && start < |lines|
    ensures ResolveStart(lines, span).Ok?
    ensures var r := ResolveEnd(lines, span, start, ResolveStart(lines, span).value.1);
            r.Ok? && r.value.0 == end <==> IsEnd(lines, span, start, end)
  {
    StartIsResolved(lines, span, start);
    FirstIsFirst(lines, start, span.endGuard);
  }

  /** A span resolves exactly to the places that it asks for. */
  lemma {:induction false} ResolvesAsAsked(lines: seq<string>, span: Span, start: nat, end: nat)
    ensures var r := Resolve(lines, span);
            r.Ok? && r.value.start == start && r.value.end == end
            <==> IsStart(lines, span, start) && IsEnd(lines, span, start, end)
  {
    hide ResolveStart, ResolveEnd, IsStart, IsEnd;
    StartIsResolved(lines, span, start);
    if IsStart(lines, span, start) && start < |lines| {
      EndIsResolved(lines, span, start, end);
    }
    assert IsEnd(lines, span, start, end) ==> start < |lines| by {
      EndIsInside(lines, span, start, end);
    }
  }

  lemma {:induction false} EndIsInside(lines: seq<string>, span: Span, start: nat, end: nat)
    ensures IsEnd(lines, span, start, end) ==> start < end <= |lines|
  {
  }

  /** Without an end line and an end guard, a span is one line. */
  lemma {:induction false} PlainSpanIsOneLine(lines: seq<string>, span: Span)
    requires span.endLine == 0 && span.endGuard == "" && span.startGuard == ""
    ensures Resolve(lines, span).Ok? <==> 1 <= span.startLine <= |lines|
    ensures var k := span.startLine;
            1 <= k <= |lines| ==>
              Resolve(lines, span) == Ok(ResolvedEdit(k - 1, k, Split(FoldCrlf(span.newString)), SpanResult(k, 0, k, k, false, false)))
  {
  }

  /** A span with an end line whose guards hold where it was asked for stays there, and only such a span does. */
  lemma {:induction false} StaysWhereAsked(lines: seq<string>, span: Span)
    requires 1 <= span.startLine <= span.endLine
    ensures var r := Resolve(lines, span);
            (r.Ok? && !r.value.result.relocated)
            <==> (span.endLine <= |lines| && GuardsHold(lines, span, span.startLine - 1, span.endLine))
    ensures var r := Resolve(lines, span);
            r.Ok? && !r.value.result.relocated ==> r.value.start == span.startLine - 1 && r.value.end == span.endLine
  {
  }

  /** A start is moved only off a line that is not its guard, and only to the one place where the guards can match. */
  lemma {:induction false} StartMovesToTheGuard(lines: seq<string>, span: Span)
    requires Resolve(lines, span).Ok? && Resolve(lines, span).value.start != span.startLine - 1
    ensures span.startGuard != "" && lines[span.startLine - 1] != span.startGuard
    ensures UniqueGuard(lines, span.startGuard, span.endGuard, Resolve(lines, span).value.start)
  {
  }

  // ----- The correction of a span's end -----

  predicate IsCloserMark(c: char) {
    c == '}' || c == ']' || c == ')' || c == ';' || c == ','
  }

  predicate CloserOnly(line: string) {
    var value := Trim(line, IsSpace);
    value == "" || Trim(Trim(value, IsCloserMark), IsSpace) == ""
  }

  lemma {:induction false} TrimLeftCuts(s: string, cut: char -> bool, c: char)
    requires c in s && !cut(c)
    ensures c in TrimLeft(s, cut)
  {
    if cut(s[0]) {
      TrimLeftCuts(s[1..], cut, c);
    }
  }

  lemma {:induction false} TrimRightCuts(s: string, cut: char -> bool, c: char)
    requires c in s && !cut(c)
    ensures c in TrimRight(s, cut)
  {
    if cut(s[|s| - 1]) {
      TrimRightCuts(s[..|s| - 1], cut, c);
    }
  }

  /** A closer-only line holds nothing but white space, closing brackets, semicolons and commas. */
  lemma {:induction false} CloserOnlyHoldsNothing(line: string, c: char)
    requires CloserOnly(line) && c in line
    ensures IsSpace(c) || IsCloserMark(c)
  {
    if !IsSpace(c) && !IsCloserMark(c) {
      TrimLeftCuts(line, IsSpace, c);
      TrimRightCuts(TrimLeft(line, IsSpace), IsSpace, c);
      var value := Trim(line, IsSpace);
      TrimLeftCuts(value, IsCloserMark, c);
      TrimRightCuts(TrimLeft(value, IsCloserMark), IsCloserMark, c);
      TrimLeftCuts(Trim(value, IsCloserMark), IsSpace, c);
      TrimRightCuts(TrimLeft(Trim(value, IsCloserMark), IsSpace), IsSpace, c);
    }
  }

  /** Every line between the two ends, whichever comes first, is closer-only. */
  predicate CloserRange(lines: seq<string>, from: nat, to: nat)
    requires from <= |lines| && to <= |lines|
  {
    forall i :: Min(from, to) <= i < Max(from, to) ==> CloserOnly(lines[i])
  }

  method IsCloserRange(lines: seq<string>, from: nat, to: nat) returns (ok: bool)
    requires from <= |lines| && to <= |lines|
    ensures ok == CloserRange(lines, from, to)
  {
    var start, end := from, to;
    if start > end {
      start, end := end, start;
    }
    for index := start to end
      invariant forall i :: start <= i < index ==> CloserOnly(lines[i])
    {
      if !CloserOnly(lines[index]) {
        return false;
      }
    }
    return true;
  }

  function EditedText(lines: seq<string>, edit: ResolvedEdit): string
    requires InRange(edit, |lines|)
  {
    Join(ReplaceLines(lines, edit.start, edit.end, edit.replacement))
  }

  /** The end can move by delta: over closer-only lines, leaving a non-empty span and balanced text. */
  predicate CanSnap(lines: seq<string>, edit: ResolvedEdit, delta: int)
    requires InRange(edit, |lines|)
  {
    && -3 <= delta <= 3 && delta != 0
    && edit.start < edit.end + delta <= |lines|
    && CloserRange(lines, edit.end, edit.end + delta)
    && Balanced(EditedText(lines, edit.(end := edit.end + delta)))
  }

  function Snapped(edit: ResolvedEdit, delta: int): ResolvedEdit
    requires edit.end + delta >= 0
  {
    edit.(end := edit.end + delta, result := edit.result.(appliedEnd := edit.end + delta, adjusted := true))
  }

  ghost predicate UniqueSnap(lines: seq<string>, edit: ResolvedEdit, delta: int)
    requires InRange(edit, |lines|)
  {
    CanSnap(lines, edit, delta) && forall d :: CanSnap(lines, edit, d) ==> d == delta
  }

  ghost predicate SomeSnap(lines: seq<string>, edit: ResolvedEdit)
    requires InRange(edit, |lines|)
  {
    exists delta :: CanSnap(lines, edit, delta)
  }

  /** The correction if exactly one is possible, nothing if none is, and an error if several are. */
  ghost function Snap(lines: seq<string>, edit: ResolvedEdit): (r: Result<Option<ResolvedEdit>, Error>)
    requires InRange(edit, |lines|)
  {
    if delta :| UniqueSnap(lines, edit, delta) then Ok(Some(Snapped(edit, delta)))
    else if SomeSnap(lines, edit) then Err(SnapAmbiguous)
    else Ok(None)
  }

  /** One round of the search below. */
  method TrySnap(lines: seq<string>, edit: ResolvedEdit, delta: int) returns (ok: bool)
    requires InRange(edit, |lines|) && -3 <= delta <= 3
    ensures ok == CanSnap(lines, edit, delta)
  {
    if delta == 0 {
      return false;
    }
    var end := edit.end + delta;
    if end <= edit.start || end > |lines| {
      return false;
    }
    ok := IsCloserRange(lines, edit.end, end);
    if ok {
      ok := IsBalanced(EditedText(lines, edit.(end := end)));
    }
  }

  /** deltas lists, ascending, the possible moves below `limit`. */
  ghost predicate SnapsBelow(lines: seq<string>, edit: ResolvedEdit, limit: int, deltas: seq<int>)
    requires InRange(edit, |lines|)
  {
    && (forall k :: 0 <= k < |deltas| ==> deltas[k] < limit && CanSnap(lines, edit, deltas[k]))
    && (forall j, k :: 0 <= j < k < |deltas| ==> deltas[j] < deltas[k])
    && (forall d :: d < limit && CanSnap(lines, edit, d) ==> d in deltas)
  }

  lemma {:induction false} SnapByCount(lines: seq<string>, edit: ResolvedEdit, deltas: seq<int>)
    requires InRange(edit, |lines|) && SnapsBelow(lines, edit, 4, deltas)
    ensures |deltas| == 0 ==> Snap(lines, edit) == Ok(None)
    ensures |deltas| == 1 ==> edit.end + deltas[0] >= 0 && Snap(lines, edit) == Ok(Some(Snapped(edit, deltas[0])))
    ensures |deltas| > 1 ==> Snap(lines, edit) == Err(SnapAmbiguous)
  {
    if |deltas| > 1 {
      assert CanSnap(lines, edit, deltas[0]) && CanSnap(lines, edit, deltas[1]) && deltas[0] < deltas[1];
    } else if |deltas| == 1 {
      assert UniqueSnap(lines, edit, deltas[0]);
    }
  }

  lemma {:induction false} SnapsExtend(lines: seq<string>, edit: ResolvedEdit, limit: int, deltas: seq<int>)
    requires InRange(edit, |lines|) && SnapsBelow(lines, edit, limit, deltas)
    ensures SnapsBelow(lines, edit, limit + 1, if CanSnap(lines, edit, limit) then deltas + [limit] else deltas)
  {
    hide CanSnap;
    if CanSnap(lines, edit, limit) {
      var more := deltas + [limit];
      assert forall d :: d in deltas ==> d in more;
      assert limit == more[|deltas|];
    }
  }

  method AutoSnap(lines: seq<string>, edit: ResolvedEdit) returns (r: Result<Option<ResolvedEdit>, Error>)
    requires InRange(edit, |lines|)
    ensures r == Snap(lines, edit)
  {
    var deltas: seq<int> := [];
    for delta := -3 to 4
      invariant SnapsBelow(lines, edit, delta, deltas)
    {
      var ok := TrySnap(lines, edit, delta);
      SnapsExtend(lines, edit, delta, deltas);
      if ok {
        deltas := deltas + [delta];
      }
    }
    SnapByCount(lines, edit, deltas);
    if |deltas| > 1 {
      return Err(SnapAmbiguous);
    }
    if |deltas| == 1 {
      return Ok(Some(Snapped(edit, deltas[0])));
    }
    return Ok(None);
  }
}
