/**
 Naming the lines of a group: ascending runs, at most eight of them, and a count of the lines left out.

 The runs printed and the count together stand for every line of the group.
 */
module LineSets {
  import opened Text
  import opened LineRanges

  const SPAN_RUN_CAP: nat := 8

  // ----- Sorting -----

  predicate Sorted(ns: seq<nat>) {
    forall i, j :: 0 <= i < j < |ns| ==> ns[i] <= ns[j]
  }

  predicate Ascending(ns: seq<nat>) {
    forall i, j :: 0 <= i < j < |ns| ==> ns[i] < ns[j]
  }

  function InsertInt(n: nat, ns: seq<nat>): seq<nat> {
    if |ns| == 0 || n <= ns[0] then [n] + ns else [ns[0]] + InsertInt(n, ns[1..])
  }

  /** `sort.Ints`. */
  function SortInts(ns: seq<nat>): seq<nat> {
    if |ns| == 0 then [] else InsertInt(ns[0], SortInts(ns[1..]))
  }

  /** Sorting orders the numbers and keeps them. */
  lemma {:induction false} SortIntsSorts(ns: seq<nat>)
    ensures Sorted(SortInts(ns)) && multiset(SortInts(ns)) == multiset(ns)
  {
    if |ns| > 0 {
      SortIntsSorts(ns[1..]);
      var sorted := SortInts(ns[1..]);
      assert ns == [ns[0]] + ns[1..];
      hide Sorted, InsertInt;
      InsertIntKeeps(ns[0], sorted);
      InsertIntSorts(ns[0], sorted);
    }
  }

  lemma {:induction false} InsertIntKeeps(n: nat, ns: seq<nat>)
    ensures multiset(InsertInt(n, ns)) == multiset(ns) + multiset{n}
  {
    if |ns| > 0 && n > ns[0] {
      InsertIntKeeps(n, ns[1..]);
      assert ns == [ns[0]] + ns[1..];
    }
  }

  lemma {:induction false} InsertIntSorts(n: nat, ns: seq<nat>)
    requires Sorted(ns)
    ensures Sorted(InsertInt(n, ns)) && forall m :: m in InsertInt(n, ns) ==> m == n || m in ns
  {
    if |ns| > 0 && n > ns[0] {
      InsertIntSorts(n, ns[1..]);
      var more := InsertInt(n, ns[1..]);
      forall i | 0 <= i < |more| ensures ns[0] <= more[i] {
        assert more[i] in more;
      }
    }
  }

  lemma {:induction false} SortedIsKept(ns: seq<nat>)
    requires Sorted(ns)
    ensures SortInts(ns) == ns
  {
    if |ns| > 0 {
      SortedIsKept(ns[1..]);
      assert ns == [ns[0]] + ns[1..];
    }
  }

  // ----- Runs -----

  function Extend(runs: seq<Run>, n: nat): seq<Run> {
    if |runs| > 0 && runs[|runs| - 1].hi + 1 == n then runs[..|runs| - 1] + [Run(runs[|runs| - 1].lo, n)]
    else runs + [Run(n, n)]
  }

  /** The runs of consecutive numbers. */
  function Runs(ns: seq<nat>): seq<Run> {
    if |ns| == 0 then [] else Extend(Runs(ns[..|ns| - 1]), ns[|ns| - 1])
  }

  method CollectRuns(ns: seq<nat>) returns (runs: seq<Run>)
    ensures runs == Runs(ns)
  {
    runs := [];
    for i := 0 to |ns|
      invariant runs == Runs(ns[..i])
    {
      TakeMore(ns, i);
      assert ns[..i + 1][..i] == ns[..i];
      var last := |runs| - 1;
      if last >= 0 && runs[last].hi + 1 == ns[i] {
        runs := runs[last := Run(runs[last].lo, ns[i])];
        assert runs == Extend(Runs(ns[..i]), ns[i]);
        continue;
      }
      runs := runs + [Run(ns[i], ns[i])];
    }
    assert ns[..|ns|] == ns;
  }

  predicate AllProper(runs: seq<Run>) {
    forall i :: 0 <= i < |runs| ==> runs[i].lo <= runs[i].hi
  }

  function Numbers(lo: nat, hi: nat): seq<nat>
    decreases hi - lo
  {
    if lo > hi then [] else [lo] + Numbers(lo + 1, hi)
  }

  /** All the numbers of the runs, in order. */
  function Expand(runs: seq<Run>): seq<nat> {
    if |runs| == 0 then [] else Numbers(runs[0].lo, runs[0].hi) + Expand(runs[1..])
  }

  lemma {:induction false} ExpandConcat(a: seq<Run>, b: seq<Run>)
    ensures Expand(a + b) == Expand(a) + Expand(b)
  {
    if |a| == 0 {
      EmptyConcat(a, b);
    } else {
      TailOfConcat(a, b);
      ExpandConcat(a[1..], b);
      Regroup3(Numbers(a[0].lo, a[0].hi), Expand(a[1..]), Expand(b));
    }
  }

  lemma {:induction false} NumbersMore(lo: nat, hi: nat)
    requires lo <= hi + 1
    ensures Numbers(lo, hi + 1) == Numbers(lo, hi) + [hi + 1]
    decreases hi + 1 - lo
  {
    if lo <= hi {
      NumbersMore(lo + 1, hi);
    }
  }

  lemma {:induction false} OneRun(run: Run)
    ensures Expand([run]) == Numbers(run.lo, run.hi)
  {
    assert [run][1..] == [] && Numbers(run.lo, run.hi) + [] == Numbers(run.lo, run.hi);
  }

  lemma {:induction false} ExtendExpands(runs: seq<Run>, n: nat)
    requires AllProper(runs)
    ensures AllProper(Extend(runs, n)) && Expand(Extend(runs, n)) == Expand(runs) + [n]
  {
    if |runs| > 0 && runs[|runs| - 1].hi + 1 == n {
      var front, last := runs[..|runs| - 1], runs[|runs| - 1];
      assert runs == front + [last];
      ExpandConcat(front, [last]);
      ExpandConcat(front, [Run(last.lo, n)]);
      OneRun(last);
      OneRun(Run(last.lo, n));
      NumbersMore(last.lo, last.hi);
      Regroup3(Expand(front), Numbers(last.lo, last.hi), [n]);
    } else {
      ExpandConcat(runs, [Run(n, n)]);
      OneRun(Run(n, n));
      assert Numbers(n, n) == [n];
    }
  }

  /** The runs name exactly the numbers, each once and in order. */
  lemma {:induction false} RunsExpand(ns: seq<nat>)
    ensures AllProper(Runs(ns)) && Expand(Runs(ns)) == ns
    decreases |ns|
  {
    if |ns| > 0 {
      var front, last := ns[..|ns| - 1], ns[|ns| - 1];
      RunsExpand(front);
      assert Runs(ns) == Extend(Runs(front), last) && ns == front + [last];
      hide *;
      ExtendExpands(Runs(front), last);
    }
  }

  /** Neighbouring runs could not have been one. */
  ghost predicate Apart(runs: seq<Run>) {
    forall i :: 1 <= i < |runs| ==> runs[i - 1].hi + 1 < runs[i].lo
  }

  /** Of ascending numbers, in the fewest runs there can be. */
  lemma {:induction false} RunsAreApart(ns: seq<nat>)
    requires Ascending(ns)
    ensures Apart(Runs(ns)) && (|ns| > 0 ==> |Runs(ns)| > 0 && Runs(ns)[|Runs(ns)| - 1].hi == ns[|ns| - 1])
    decreases |ns|
  {
    if |ns| > 0 {
      RunsAreApart(ns[..|ns| - 1]);
    }
  }

  // ----- The span -----

  function Size(run: Run): int {
    run.hi - run.lo + 1
  }

  function TotalSize(runs: seq<Run>): int {
    if |runs| == 0 then 0 else Size(runs[0]) + TotalSize(runs[1..])
  }

  function Listed(runs: seq<Run>): seq<Run> {
    if |runs| > SPAN_RUN_CAP then runs[..SPAN_RUN_CAP] else runs
  }

  function Overflow(runs: seq<Run>): int {
    if |runs| > SPAN_RUN_CAP then TotalSize(runs[SPAN_RUN_CAP..]) else 0
  }

  lemma {:induction false} NumbersCount(lo: nat, hi: nat)
    requires lo <= hi + 1
    ensures |Numbers(lo, hi)| == hi - lo + 1
    decreases hi + 1 - lo
  {
    if lo <= hi {
      NumbersCount(lo + 1, hi);
    }
  }

  lemma {:induction false} SizeIsCount(runs: seq<Run>)
    requires AllProper(runs)
    ensures TotalSize(runs) == |Expand(runs)|
  {
    if |runs| > 0 {
      NumbersCount(runs[0].lo, runs[0].hi);
      assert AllProper(runs[1..]) by {
        assert forall i :: 0 <= i < |runs[1..]| ==> runs[1..][i] == runs[i + 1];
      }
      SizeIsCount(runs[1..]);
    }
  }

  /** What is listed, then what overflows: nothing is missing and nothing counted twice. */
  lemma {:induction false} ListedPlusOverflow(ns: seq<nat>)
    ensures var runs := Runs(ns);
            && |Expand(Listed(runs))| <= |ns| && Expand(Listed(runs)) == ns[..|Expand(Listed(runs))|]
            && 0 <= Overflow(runs) && |Expand(Listed(runs))| + Overflow(runs) == |ns|
            && |Listed(runs)| <= 8 && (Overflow(runs) > 0 ==> |Listed(runs)| == 8)
  {
    var runs := Runs(ns);
    RunsExpand(ns);
    if |runs| > SPAN_RUN_CAP {
      var listed, rest := runs[..SPAN_RUN_CAP], runs[SPAN_RUN_CAP..];
      assert runs == listed + rest;
      ExpandConcat(listed, rest);
      assert AllProper(rest) by {
        assert forall i :: 0 <= i < |rest| ==> rest[i] == runs[i + SPAN_RUN_CAP];
      }
      SizeIsCount(rest);
    }
  }

  function SpanText(ns: seq<nat>): string {
    var runs := Runs(SortInts(ns));
    "[" + (if |runs| > 0 then "L" + RunsText(Listed(runs)) else "")
    + (if Overflow(runs) > 0 then " +" + Decimal(Overflow(runs)) else "") + "]"
  }

  /** The listed runs, and the number of lines left out if there are any, in brackets. */
  lemma {:induction false} SpanSaysSo(ns: seq<nat>)
    requires |ns| > 0 && Ascending(ns)
    ensures var listed, left := Listed(Runs(ns)), |ns| - |Expand(Listed(Runs(ns)))|;
            SpanText(ns) == "[L" + RunsText(listed) + (if left > 0 then " +" + Decimal(left) else "") + "]"
  {
    hide RunsText, Decimal, SortInts, Runs, Expand;
    ListedPlusOverflow(ns);
    SortedIsKept(ns);
    assert |Runs(ns)| > 0 by {
      SomeRun(ns);
    }
  }

  lemma {:induction false} SomeRun(ns: seq<nat>)
    requires |ns| > 0
    ensures |Runs(ns)| > 0
  {
    RunsExpand(ns);
  }

  lemma {:induction false} RunsTextMore(runs: seq<Run>, i: nat)
    requires i < |runs|
    ensures RunsText(runs[..i + 1]) == RunsText(runs[..i]) + (if i == 0 then "" else ",") + RunText(runs[i])
    decreases |runs|
  {
    hide RunText;
    var more := runs[..i + 1];
    if i == 0 {
      assert more == [runs[0]];
    } else {
      RunsTextMore(runs[1..], i - 1);
      assert more[1..] == runs[1..][..i] && runs[..i][1..] == runs[1..][..i - 1];
      var first := RunText(runs[0]);
      if i == 1 {
        assert runs[1..][..0] == [] && RunsText(runs[..1]) == first;
      } else {
        Regroup4(first + ",", RunsText(runs[1..][..i - 1]), ",", RunText(runs[i]));
        Regroup3(first + "," + RunsText(runs[1..][..i - 1]), ",", RunText(runs[i]));
      }
    }
  }

  method RenderLineSet(ns: seq<nat>) returns (span: string)
    ensures span == SpanText(ns)
  {
    hide RunText, Runs, Expand, Decimal, SortInts;
    var runs := CollectRuns(SortInts(ns));
    var listed, overflow := runs, 0;
    if |runs| > SPAN_RUN_CAP {
      listed := runs[..SPAN_RUN_CAP];
      for i := SPAN_RUN_CAP to |runs|
        invariant overflow + TotalSize(runs[i..]) == TotalSize(runs[SPAN_RUN_CAP..])
      {
        assert runs[i..][0] == runs[i] && runs[i..][1..] == runs[i + 1..];
        overflow := overflow + runs[i].hi - runs[i].lo + 1;
      }
    }
    var body := "";
    for i := 0 to |listed|
      invariant body == (if i > 0 then "L" else "") + RunsText(listed[..i])
    {
      RunsTextMore(listed, i);
      body := body + (if i == 0 then "L" else ",") + RunText(listed[i]);
    }
    assert listed[..|listed|] == listed;
    span := "[" + body;
    if overflow > 0 {
      span := span + (" +" + Decimal(overflow));
    }
    span := span + "]";
  }

  // ----- Reading the span back -----

  /** The lines with these numbers, counted from one. */
  function LinesAt(lines: seq<string>, ns: seq<nat>): seq<string> {
    if |ns| == 0 then []
    else (if 1 <= ns[0] <= |lines| then [lines[ns[0] - 1]] else []) + LinesAt(lines, ns[1..])
  }

  lemma {:induction false} LinesAtHead(lines: seq<string>, n: nat, ns: seq<nat>)
    requires 1 <= n <= |lines|
    ensures LinesAt(lines, [n] + ns) == [lines[n - 1]] + LinesAt(lines, ns)
  {
    TailOfConcat([n], ns);
    EmptyConcat([n][1..], ns);
  }

  lemma {:induction false} HeadOfSlice(lines: seq<string>, lo: nat, hi: nat)
    requires 1 <= lo <= hi <= |lines|
    ensures lines[lo - 1..hi] == [lines[lo - 1]] + lines[lo..hi]
  {
  }

  lemma {:induction false} LinesOfNumbers(lines: seq<string>, lo: nat, hi: nat)
    requires 1 <= lo <= hi + 1 && hi <= |lines|
    ensures lines[lo - 1..hi] == LinesAt(lines, Numbers(lo, hi))
    decreases hi + 1 - lo
  {
    if lo <= hi {
      LinesOfNumbers(lines, lo + 1, hi);
      LinesAtHead(lines, lo, Numbers(lo + 1, hi));
      HeadOfSlice(lines, lo, hi);
    }
  }

  lemma {:induction false} LinesAtConcat(lines: seq<string>, a: seq<nat>, b: seq<nat>)
    ensures LinesAt(lines, a + b) == LinesAt(lines, a) + LinesAt(lines, b)
  {
    if |a| == 0 {
      EmptyConcat(a, b);
    } else {
      TailOfConcat(a, b);
      LinesAtConcat(lines, a[1..], b);
      Regroup3(if 1 <= a[0] <= |lines| then [lines[a[0] - 1]] else [], LinesAt(lines, a[1..]), LinesAt(lines, b));
    }
  }

  predicate Within(runs: seq<Run>, n: nat) {
    forall i :: 0 <= i < |runs| ==> 1 <= runs[i].lo <= runs[i].hi <= n
  }

  lemma {:induction false} LinesOfRuns(lines: seq<string>, runs: seq<Run>)
    requires Within(runs, |lines|)
    ensures LinesOf(lines, runs) == LinesAt(lines, Expand(runs))
  {
    if |runs| > 0 {
      assert Within(runs[1..], |lines|) by {
        assert forall i :: 0 <= i < |runs[1..]| ==> runs[1..][i] == runs[i + 1];
      }
      LinesOfRuns(lines, runs[1..]);
      LinesOfNumbers(lines, runs[0].lo, runs[0].hi);
      LinesAtConcat(lines, Numbers(runs[0].lo, runs[0].hi), Expand(runs[1..]));
    }
  }

  lemma {:induction false} RunsWithin(ns: seq<nat>, n: nat)
    requires forall i :: 0 <= i < |ns| ==> 1 <= ns[i] <= n
    ensures Within(Runs(ns), n)
    decreases |ns|
  {
    if |ns| > 0 {
      RunsWithin(ns[..|ns| - 1], n);
    }
  }

  /**
   The run list a span shows, given back as a line range, selects exactly the lines of the group it stands for, in
   order; all of them unless some overflow.
   */
  lemma {:induction false} SpanSelectsItsLines(value: string, ns: seq<nat>)
    requires |ns| > 0 && Ascending(ns) && 1 <= ns[0] && ns[|ns| - 1] <= |Split(value)| <= MAX_INT
    ensures var runs := Runs(SortInts(ns));
            && |runs| > 0 && 0 <= Overflow(runs) <= |ns|
            && Selection(value, RunsText(Listed(runs))) == Ok(Join(LinesAt(Split(value), ns[..|ns| - Overflow(runs)])))
  {
    hide Runs, RunsText, Selection, LinesOf, LinesAt, Listed, Overflow, Expand;
    SortedIsKept(ns);
    RunsAreApart(ns);
    ListedPlusOverflow(ns);
    NumbersWithin(ns, |Split(value)|);
    RunsWithin(ns, |Split(value)|);
    ListedWithin(Runs(ns), |Split(value)|);
    var listed := Listed(Runs(ns));
    PrintedRunsSelect(value, listed);
    LinesOfRuns(Split(value), listed);
  }

  lemma {:induction false} NumbersWithin(ns: seq<nat>, n: nat)
    requires |ns| > 0 && Ascending(ns) && 1 <= ns[0] && ns[|ns| - 1] <= n
    ensures forall i :: 0 <= i < |ns| ==> 1 <= ns[i] <= n
  {
    forall i | 0 <= i < |ns| ensures 1 <= ns[i] <= n {
      assert i > 0 ==> ns[0] < ns[i];
      assert i < |ns| - 1 ==> ns[i] < ns[|ns| - 1];
    }
  }

  lemma {:induction false} ListedWithin(runs: seq<Run>, n: nat)
    requires Within(runs, n) && |runs| > 0
    ensures |Listed(runs)| > 0 && Within(Listed(runs), n)
  {
    assert forall i :: 0 <= i < |Listed(runs)| ==> Listed(runs)[i] == runs[i];
  }
}
