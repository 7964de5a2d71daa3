/**
 Replacing several spans of a list of lines: from the last to the first, as the edit engine does it, and in one
 ascending pass.

 Spans are counted from zero and without their end, as the engine keeps them once they are resolved.
 */
module Splice {
  import opened Text

  /** What the caller asked for and what was done, lines counted from one. */
  datatype SpanResult = SpanResult(requestedStart: int, requestedEnd: int, appliedStart: int, appliedEnd: int,
                                   relocated: bool, adjusted: bool)

  /** Lines start..end, counted from zero and without end, give way to replacement. */
  datatype ResolvedEdit = ResolvedEdit(start: nat, end: nat, replacement: seq<string>, result: SpanResult)

  predicate InRange(edit: ResolvedEdit, n: nat) {
    edit.start < edit.end <= n
  }

  predicate AllInRange(edits: seq<ResolvedEdit>, n: nat) {
    forall i :: 0 <= i < |edits| ==> InRange(edits[i], n)
  }

  function ReplaceLines(lines: seq<string>, start: nat, end: nat, replacement: seq<string>): seq<string>
    requires start <= end <= |lines|
  {
    lines[..start] + replacement + lines[end..]
  }

  // ----- One ascending pass -----

  /** The spans ascend from `from` and do not overlap. */
  predicate InOrder(edits: seq<ResolvedEdit>, from: nat, n: nat) {
    if |edits| == 0 then from <= n
    else from <= edits[0].start && InRange(edits[0], n) && InOrder(edits[1..], edits[0].end, n)
  }

  /** lines[from..] with every span replaced, in one pass from left to right. */
  function Spliced(lines: seq<string>, edits: seq<ResolvedEdit>, from: nat): seq<string>
    requires InOrder(edits, from, |lines|)
  {
    if |edits| == 0 then lines[from..]
    else lines[from..edits[0].start] + (edits[0].replacement + Spliced(lines, edits[1..], edits[0].end))
  }

  function PrevEnd(edits: seq<ResolvedEdit>, i: nat): nat
    requires i <= |edits|
  {
    if i == 0 then 0 else edits[i - 1].end
  }

  lemma {:induction false} SuffixInOrder(edits: seq<ResolvedEdit>, from: nat, n: nat, i: nat)
    requires InOrder(edits, from, n) && i <= |edits|
    ensures InOrder(edits[i..], if i == 0 then from else edits[i - 1].end, n)
  {
    if i == 0 {
      assert edits[0..] == edits;
    } else {
      SuffixInOrder(edits[1..], edits[0].end, n, i - 1);
      assert edits[1..][i - 1..] == edits[i..];
    }
  }

  lemma {:induction false} ReplaceStep(lines: seq<string>, prev: nat, start: nat, end: nat, replacement: seq<string>, after: seq<string>)
    requires prev <= start <= end <= |lines|
    ensures ReplaceLines(lines[..end] + after, start, end, replacement)
         == lines[..prev] + (lines[prev..start] + (replacement + after))
  {
    var candidate := lines[..end] + after;
    assert candidate[..start] == lines[..start] && candidate[end..] == after;
    assert lines[..start] == lines[..prev] + lines[prev..start];
    Regroup4(lines[..prev], lines[prev..start], replacement, after);
  }

  lemma {:induction false} SplicedStep(lines: seq<string>, edits: seq<ResolvedEdit>, prev: nat)
    requires InOrder(edits, prev, |lines|) && |edits| > 0
    ensures InOrder(edits[1..], edits[0].end, |lines|)
    ensures ReplaceLines(lines[..edits[0].end] + Spliced(lines, edits[1..], edits[0].end),
                         edits[0].start, edits[0].end, edits[0].replacement)
         == lines[..prev] + Spliced(lines, edits, prev)
  {
    ReplaceStep(lines, prev, edits[0].start, edits[0].end, edits[0].replacement, Spliced(lines, edits[1..], edits[0].end));
  }

  /** Replacing the spans from the last to the first is one ascending pass. */
  method ApplyBottomUp(lines: seq<string>, edits: seq<ResolvedEdit>) returns (candidate: seq<string>)
    requires InOrder(edits, 0, |lines|)
    ensures candidate == Spliced(lines, edits, 0)
  {
    candidate := lines;
    var index := |edits|;
    SuffixInOrder(edits, 0, |lines|, index);
    assert edits[index..] == [];
    assert lines == lines[..PrevEnd(edits, index)] + lines[PrevEnd(edits, index)..];
    while index > 0
      invariant index <= |edits| && InOrder(edits[index..], PrevEnd(edits, index), |lines|)
      invariant PrevEnd(edits, index) <= |lines|
      invariant candidate == lines[..PrevEnd(edits, index)] + Spliced(lines, edits[index..], PrevEnd(edits, index))
    {
      index := index - 1;
      var edit := edits[index];
      SuffixInOrder(edits, 0, |lines|, index);
      assert edits[index..][0] == edit && edits[index..][1..] == edits[index + 1..];
      SplicedStep(lines, edits[index..], PrevEnd(edits, index));
      candidate := ReplaceLines(candidate, edit.start, edit.end, edit.replacement);
    }
    assert edits[0..] == edits;
    EmptyConcat(lines[..0], Spliced(lines, edits, 0));
  }

  // ----- Where every line ends up -----

  /** How far the spans that end at or before line p move it. */
  function Shift(edits: seq<ResolvedEdit>, p: nat): int {
    if |edits| == 0 then 0
    else
      (if edits[0].end <= p then |edits[0].replacement| - (edits[0].end - edits[0].start) else 0)
      + Shift(edits[1..], p)
  }

  predicate Outside(edits: seq<ResolvedEdit>, p: nat) {
    forall i :: 0 <= i < |edits| ==> p < edits[i].start || edits[i].end <= p
  }

  lemma {:induction false} NothingBefore(edits: seq<ResolvedEdit>, from: nat, n: nat, p: nat)
    requires InOrder(edits, from, n) && p <= from
    ensures Shift(edits, p) == 0
  {
    if |edits| > 0 {
      NothingBefore(edits[1..], edits[0].end, n, p);
    }
  }

  /** part is what stands in text at position at. */
  predicate StandsAt<T(==)>(text: seq<T>, at: int, part: seq<T>) {
    0 <= at <= at + |part| <= |text| && forall i :: 0 <= i < |part| ==> text[at + i] == part[i]
  }

  lemma {:induction false} StandsInFirst<T>(a: seq<T>, b: seq<T>, c: seq<T>, at: nat)
    requires at < |a|
    ensures StandsAt(a + (b + c), at, [a[at]])
  {
  }

  lemma {:induction false} StandsInMiddle<T>(a: seq<T>, b: seq<T>, c: seq<T>)
    ensures StandsAt(a + (b + c), |a|, b)
  {
  }

  lemma {:induction false} StandsInLast<T>(a: seq<T>, b: seq<T>, c: seq<T>, at: int, part: seq<T>)
    requires StandsAt(c, at, part)
    ensures StandsAt(a + (b + c), |a| + |b| + at, part)
  {
  }

  lemma {:induction false} ShiftAfterFirst(edits: seq<ResolvedEdit>, p: nat)
    requires |edits| > 0 && edits[0].start < edits[0].end <= p
    ensures Shift(edits, p) == |edits[0].replacement| - (edits[0].end - edits[0].start) + Shift(edits[1..], p)
  {
  }

  lemma {:induction false} StandsAfterFirst(lines: seq<string>, edits: seq<ResolvedEdit>, from: nat, p: nat, part: seq<string>)
    requires InOrder(edits, from, |lines|) && |edits| > 0 && edits[0].end <= p
    requires StandsAt(Spliced(lines, edits[1..], edits[0].end), p - edits[0].end + Shift(edits[1..], p), part)
    ensures StandsAt(Spliced(lines, edits, from), p - from + Shift(edits, p), part)
  {
    var gap, after := lines[from..edits[0].start], Spliced(lines, edits[1..], edits[0].end);
    var at := p - edits[0].end + Shift(edits[1..], p);
    ShiftAfterFirst(edits, p);
    StandsInLast(gap, edits[0].replacement, after, at, part);
    assert |gap| + |edits[0].replacement| + at == p - from + Shift(edits, p);
  }

  lemma {:induction false} OutsideRest(edits: seq<ResolvedEdit>, p: nat)
    requires Outside(edits, p) && |edits| > 0
    ensures Outside(edits[1..], p)
  {
    assert forall i :: 0 <= i < |edits[1..]| ==> edits[1..][i] == edits[i + 1];
  }

  lemma {:induction false} StandsBeforeFirst(lines: seq<string>, edits: seq<ResolvedEdit>, from: nat, p: nat)
    requires InOrder(edits, from, |lines|) && |edits| > 0 && from <= p <= edits[0].start
    ensures Shift(edits, p) == 0
    ensures p < edits[0].start ==> StandsAt(Spliced(lines, edits, from), p - from, [lines[p]])
    ensures p == edits[0].start ==> StandsAt(Spliced(lines, edits, from), p - from, edits[0].replacement)
  {
    var gap, replacement, after := lines[from..edits[0].start], edits[0].replacement, Spliced(lines, edits[1..], edits[0].end);
    NothingBefore(edits[1..], edits[0].end, |lines|, p);
    if p < edits[0].start {
      StandsInFirst(gap, replacement, after, p - from);
    } else {
      StandsInMiddle(gap, replacement, after);
    }
  }

  lemma {:induction false} KeptFrom(lines: seq<string>, edits: seq<ResolvedEdit>, from: nat, p: nat)
    requires InOrder(edits, from, |lines|) && from <= p < |lines| && Outside(edits, p)
    ensures StandsAt(Spliced(lines, edits, from), p - from + Shift(edits, p), [lines[p]])
    decreases |edits|
  {
    if |edits| > 0 {
      if p < edits[0].start {
        StandsBeforeFirst(lines, edits, from, p);
      } else {
        OutsideRest(edits, p);
        KeptFrom(lines, edits[1..], edits[0].end, p);
        StandsAfterFirst(lines, edits, from, p, [lines[p]]);
      }
    }
  }

  /** A line outside every span is kept, moved only by the spans before it. */
  lemma {:induction false} OutsideIsKept(lines: seq<string>, edits: seq<ResolvedEdit>, p: nat)
    requires InOrder(edits, 0, |lines|) && p < |lines| && Outside(edits, p)
    ensures StandsAt(Spliced(lines, edits, 0), p + Shift(edits, p), [lines[p]])
  {
    KeptFrom(lines, edits, 0, p);
  }

  ghost predicate Lands(lines: seq<string>, edits: seq<ResolvedEdit>, from: nat, edit: ResolvedEdit)
    requires InOrder(edits, from, |lines|)
  {
    from <= edit.start && StandsAt(Spliced(lines, edits, from), edit.start - from + Shift(edits, edit.start), edit.replacement)
  }

  lemma {:induction false} LandsAfterFirst(lines: seq<string>, edits: seq<ResolvedEdit>, from: nat, edit: ResolvedEdit)
    requires InOrder(edits, from, |lines|) && |edits| > 0 && Lands(lines, edits[1..], edits[0].end, edit)
    ensures Lands(lines, edits, from, edit)
  {
    StandsAfterFirst(lines, edits, from, edit.start, edit.replacement);
  }

  lemma {:induction false} LandsFrom(lines: seq<string>, edits: seq<ResolvedEdit>, from: nat, k: nat)
    requires InOrder(edits, from, |lines|) && k < |edits|
    ensures Lands(lines, edits, from, edits[k])
    decreases k
  {
    if k == 0 {
      StandsBeforeFirst(lines, edits, from, edits[0].start);
    } else {
      LandsFrom(lines, edits[1..], edits[0].end, k - 1);
      LandsAfterFirst(lines, edits, from, edits[1..][k - 1]);
    }
  }

  /** Every replacement stands whole where its span began, moved only by the spans before it. */
  lemma {:induction false} ReplacementLands(lines: seq<string>, edits: seq<ResolvedEdit>, k: nat)
    requires InOrder(edits, 0, |lines|) && k < |edits|
    ensures StandsAt(Spliced(lines, edits, 0), edits[k].start + Shift(edits, edits[k].start), edits[k].replacement)
  {
    LandsFrom(lines, edits, 0, k);
  }

  /** Together with the two lemmas above: there is nothing else in the result. */
  lemma {:induction false} SplicedLength(lines: seq<string>, edits: seq<ResolvedEdit>, from: nat)
    requires InOrder(edits, from, |lines|)
    ensures |Spliced(lines, edits, from)| == |lines| - from + Shift(edits, |lines|)
    decreases |edits|
  {
    if |edits| > 0 {
      SplicedLength(lines, edits[1..], edits[0].end);
    }
  }

  // ----- Sorting -----

  predicate SortedByStart(edits: seq<ResolvedEdit>) {
    forall i, j :: 0 <= i < j < |edits| ==> edits[i].start <= edits[j].start
  }

  /** Before the first edit that starts no earlier. */
  function Insert(edit: ResolvedEdit, edits: seq<ResolvedEdit>): seq<ResolvedEdit> {
    if |edits| == 0 || edit.start <= edits[0].start then [edit] + edits
    else [edits[0]] + Insert(edit, edits[1..])
  }

  /** `sort.SliceStable` by start. */
  function Sort(edits: seq<ResolvedEdit>): seq<ResolvedEdit> {
    if |edits| == 0 then [] else Insert(edits[0], Sort(edits[1..]))
  }

  lemma {:induction false} HeadMultiset<T>(s: seq<T>)
    requires |s| > 0
    ensures multiset(s) == multiset{s[0]} + multiset(s[1..])
  {
    assert s == [s[0]] + s[1..];
  }

  lemma {:induction false} ConsSorted(edit: ResolvedEdit, edits: seq<ResolvedEdit>)
    requires SortedByStart(edits) && (forall e :: e in edits ==> edit.start <= e.start)
    ensures SortedByStart([edit] + edits)
  {
    var all := [edit] + edits;
    forall i, j | 0 <= i < j < |all| ensures all[i].start <= all[j].start {
      assert all[j] == edits[j - 1] && (i > 0 ==> all[i] == edits[i - 1]);
    }
  }

  lemma {:induction false} InsertAdds(edit: ResolvedEdit, edits: seq<ResolvedEdit>)
    ensures multiset(Insert(edit, edits)) == multiset{edit} + multiset(edits)
  {
    if |edits| > 0 && edit.start > edits[0].start {
      InsertAdds(edit, edits[1..]);
      HeadMultiset(edits);
    }
  }

  lemma {:induction false} InsertSorts(edit: ResolvedEdit, edits: seq<ResolvedEdit>)
    requires SortedByStart(edits)
    ensures SortedByStart(Insert(edit, edits))
  {
    if |edits| == 0 || edit.start <= edits[0].start {
      ConsSorted(edit, edits);
    } else {
      var inserted := Insert(edit, edits[1..]);
      InsertSorts(edit, edits[1..]);
      InsertAdds(edit, edits[1..]);
      forall e | e in inserted ensures edits[0].start <= e.start {
        assert e in multiset(inserted);
        assert e == edit || e in edits[1..];
      }
      ConsSorted(edits[0], inserted);
    }
  }

  lemma {:induction false} SortSorts(edits: seq<ResolvedEdit>)
    ensures SortedByStart(Sort(edits)) && multiset(Sort(edits)) == multiset(edits)
  {
    if |edits| > 0 {
      SortSorts(edits[1..]);
      InsertSorts(edits[0], Sort(edits[1..]));
      InsertAdds(edits[0], Sort(edits[1..]));
      HeadMultiset(edits);
    }
  }

  // ----- The overlap check -----

  /** What the check after sorting demands: no span starts before the one before it ends. */
  predicate NoOverlap(edits: seq<ResolvedEdit>) {
    forall i :: 1 <= i < |edits| ==> edits[i - 1].end <= edits[i].start
  }

  lemma {:induction false} NoOverlapIsInOrder(edits: seq<ResolvedEdit>, from: nat, n: nat)
    requires AllInRange(edits, n) && NoOverlap(edits) && from <= n && (|edits| > 0 ==> from <= edits[0].start)
    ensures InOrder(edits, from, n)
    decreases |edits|
  {
    if |edits| > 0 {
      var rest := edits[1..];
      assert forall i :: 0 <= i < |rest| ==> rest[i] == edits[i + 1];
      NoOverlapIsInOrder(rest, edits[0].end, n);
    }
  }

  /** Two spans of the list share a line. */
  ghost predicate SomeOverlap(edits: seq<ResolvedEdit>) {
    exists i, j :: 0 <= i < j < |edits| && edits[i].start < edits[j].end && edits[j].start < edits[i].end
  }

  lemma {:induction false} EndsBefore(edits: seq<ResolvedEdit>, n: nat, i: nat, j: nat)
    requires AllInRange(edits, n) && NoOverlap(edits) && i < j < |edits|
    ensures edits[i].end <= edits[j].start
    decreases j - i
  {
    assert edits[j - 1].end <= edits[j].start;
    if i < j - 1 {
      EndsBefore(edits, n, i, j - 1);
      assert InRange(edits[j - 1], n);
    }
  }

  /** Comparing neighbours after sorting finds an overlap exactly when some two spans share a line. */
  lemma {:induction false} NeighboursSuffice(edits: seq<ResolvedEdit>, n: nat)
    requires AllInRange(edits, n) && SortedByStart(edits)
    ensures NoOverlap(edits) <==> !SomeOverlap(edits)
  {
    if NoOverlap(edits) {
      forall i, j | 0 <= i < j < |edits| ensures edits[i].end <= edits[j].start {
        EndsBefore(edits, n, i, j);
      }
    } else {
      var i :| 1 <= i < |edits| && edits[i].start < edits[i - 1].end;
      assert InRange(edits[i], n) && edits[i - 1].start <= edits[i].start;
    }
  }

  lemma {:induction false} SameHead(s: seq<ResolvedEdit>, t: seq<ResolvedEdit>, n: nat)
    requires AllInRange(s, n) && NoOverlap(s) && SortedByStart(t) && multiset(s) == multiset(t) && |s| > 0
    ensures |t| > 0 && s[0] == t[0]
  {
    assert s[0] in multiset(t);
    assert t[0] in multiset(s);
    var j :| 0 <= j < |t| && t[j] == s[0];
    var k :| 0 <= k < |s| && s[k] == t[0];
    assert t[0].start <= t[j].start;
    assert InRange(s[0], n);
    if k > 0 {
      EndsBefore(s, n, 0, k);
    }
  }

  lemma {:induction false} SameRest<T>(x: T, s: multiset<T>, t: multiset<T>)
    requires multiset{x} + s == multiset{x} + t
    ensures s == t
  {
    assert s == (multiset{x} + s) - multiset{x};
    assert t == (multiset{x} + t) - multiset{x};
  }

  lemma {:induction false} SameInBoth(s: seq<ResolvedEdit>, t: seq<ResolvedEdit>, n: nat)
    requires AllInRange(s, n) && NoOverlap(s) && SortedByStart(t) && multiset(s) == multiset(t)
    ensures s == t
    decreases |s|
  {
    if |s| == 0 {
      assert |t| == |multiset(t)|;
    } else {
      SameHead(s, t, n);
      HeadMultiset(s);
      HeadMultiset(t);
      SameRest(s[0], multiset(s[1..]), multiset(t[1..]));
      assert forall i :: 0 <= i < |s[1..]| ==> s[1..][i] == s[i + 1];
      SameInBoth(s[1..], t[1..], n);
      assert s == [s[0]] + s[1..] && t == [t[0]] + t[1..];
    }
  }

  lemma {:induction false} PermutedInRange(a: seq<ResolvedEdit>, b: seq<ResolvedEdit>, n: nat)
    requires AllInRange(a, n) && multiset(a) == multiset(b)
    ensures AllInRange(b, n)
  {
    forall i | 0 <= i < |b| ensures InRange(b[i], n) {
      assert b[i] in multiset(a);
    }
  }

  /** The order in which spans are supplied decides nothing: not whether they overlap, and not how they are sorted. */
  lemma {:induction false} OrderIsIrrelevant(a: seq<ResolvedEdit>, b: seq<ResolvedEdit>, n: nat)
    requires AllInRange(a, n) && multiset(a) == multiset(b)
    ensures NoOverlap(Sort(a)) <==> NoOverlap(Sort(b))
    ensures NoOverlap(Sort(a)) ==> Sort(a) == Sort(b)
  {
    SortSorts(a);
    SortSorts(b);
    PermutedInRange(a, Sort(a), n);
    PermutedInRange(a, Sort(b), n);
    if NoOverlap(Sort(a)) {
      SameInBoth(Sort(a), Sort(b), n);
    } else if NoOverlap(Sort(b)) {
      SameInBoth(Sort(b), Sort(a), n);
    }
  }
}
