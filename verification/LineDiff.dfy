/** The line differ of internal/filetool/diff.go, which keeps as many lines as any common subsequence. */
module LineDiff {
  import opened Text

  datatype Kind = Keep | Delete | Insert

  /** One operation of a line diff. */
  datatype DiffLine = DiffLine(kind: Kind, text: string)

  /** Above this many table cells the differ does not search for common lines. */
  const TABLE_LIMIT: nat := 4_000_000

  // ----- What a script means -----

  function OldPart(op: DiffLine): seq<string> {
    if op.kind != Insert then [op.text] else []
  }

  function NewPart(op: DiffLine): seq<string> {
    if op.kind != Delete then [op.text] else []
  }

  function OldLines(ops: seq<DiffLine>): seq<string> {
    if |ops| == 0 then [] else OldPart(ops[0]) + OldLines(ops[1..])
  }

  function NewLines(ops: seq<DiffLine>): seq<string> {
    if |ops| == 0 then [] else NewPart(ops[0]) + NewLines(ops[1..])
  }

  function KeptLines(ops: seq<DiffLine>): seq<string> {
    if |ops| == 0 then []
    else if ops[0].kind == Keep then [ops[0].text] + KeptLines(ops[1..])
    else KeptLines(ops[1..])
  }

  lemma {:induction false} OldLinesConcat(a: seq<DiffLine>, b: seq<DiffLine>)
    ensures OldLines(a + b) == OldLines(a) + OldLines(b)
  {
    if |a| == 0 {
      EmptyConcat(a, b);
    } else {
      OldLinesConcat(a[1..], b);
      TailOfConcat(a, b);
      Regroup3(OldPart(a[0]), OldLines(a[1..]), OldLines(b));
    }
  }

  lemma {:induction false} NewLinesConcat(a: seq<DiffLine>, b: seq<DiffLine>)
    ensures NewLines(a + b) == NewLines(a) + NewLines(b)
  {
    if |a| == 0 {
      EmptyConcat(a, b);
    } else {
      NewLinesConcat(a[1..], b);
      TailOfConcat(a, b);
      Regroup3(NewPart(a[0]), NewLines(a[1..]), NewLines(b));
    }
  }

  // ----- Common subsequences -----

  /** `index` picks the elements of s out of t, left to right. */
  ghost predicate Embeds(s: seq<string>, t: seq<string>, index: seq<int>) {
    && |index| == |s|
    && (forall k :: 0 <= k < |s| ==> 0 <= index[k] < |t| && t[index[k]] == s[k])
    && (forall k, l :: 0 <= k < l < |s| ==> index[k] < index[l])
  }

  ghost predicate IsSubsequence(s: seq<string>, t: seq<string>) {
    exists index :: Embeds(s, t, index)
  }

  /** The greedy decision procedure for IsSubsequence, which the optimality proof recurses over. */
  predicate GreedySub(s: seq<string>, t: seq<string>) {
    if |s| == 0 then true
    else if |t| == 0 then false
    else if s[0] == t[0] then GreedySub(s[1..], t[1..])
    else GreedySub(s, t[1..])
  }

  lemma {:induction false} EmbeddedIsGreedy(s: seq<string>, t: seq<string>, index: seq<int>)
    requires Embeds(s, t, index)
    ensures GreedySub(s, t)
    decreases |t|
  {
    if |s| > 0 {
      assert |t| > 0 by { assert 0 <= index[0] < |t|; }
      if s[0] == t[0] {
        var shifted := seq(|s| - 1, k requires 0 <= k < |s| - 1 => index[k + 1] - 1);
        forall k | 0 <= k < |s| - 1
          ensures 0 <= shifted[k] < |t[1..]| && t[1..][shifted[k]] == s[1..][k]
        {
          assert index[0] < index[k + 1];
        }
        EmbeddedIsGreedy(s[1..], t[1..], shifted);
      } else {
        var shifted := seq(|s|, k requires 0 <= k < |s| => index[k] - 1);
        forall k | 0 <= k < |s|
          ensures 0 <= shifted[k] < |t[1..]| && t[1..][shifted[k]] == s[k]
        {
          assert index[0] != 0;
          if k > 0 { assert index[0] < index[k]; }
        }
        EmbeddedIsGreedy(s, t[1..], shifted);
      }
    }
  }

  // ----- The table -----

  /** Entry (i, j) of the table: how many lines oldLines[i..] and newLines[j..] can share. */
  function Lcs(oldLines: seq<string>, newLines: seq<string>, i: nat, j: nat): (length: nat)
    requires i <= |oldLines| && j <= |newLines|
    decreases |oldLines| - i + |newLines| - j
  {
    if i == |oldLines| || j == |newLines| then 0
    else if oldLines[i] == newLines[j] then Lcs(oldLines, newLines, i + 1, j + 1) + 1
    else Max(Lcs(oldLines, newLines, i + 1, j), Lcs(oldLines, newLines, i, j + 1))
  }

  /** No common subsequence of the two suffixes is longer than the table entry. */
  lemma {:induction false} LcsBounds(oldLines: seq<string>, newLines: seq<string>, i: nat, j: nat, s: seq<string>)
    requires i <= |oldLines| && j <= |newLines|
    requires GreedySub(s, oldLines[i..]) && GreedySub(s, newLines[j..])
    ensures |s| <= Lcs(oldLines, newLines, i, j)
    decreases |oldLines| - i + |newLines| - j
  {
    if |s| > 0 {
      assert i < |oldLines| && j < |newLines|;
      assert oldLines[i..][1..] == oldLines[i + 1..];
      assert newLines[j..][1..] == newLines[j + 1..];
      if oldLines[i] == newLines[j] {
        if s[0] == oldLines[i] {
          LcsBounds(oldLines, newLines, i + 1, j + 1, s[1..]);
        } else {
          LcsBounds(oldLines, newLines, i + 1, j + 1, s);
        }
      } else if s[0] == oldLines[i] {
        LcsBounds(oldLines, newLines, i, j + 1, s);
      } else {
        LcsBounds(oldLines, newLines, i + 1, j, s);
      }
    }
  }

  // ----- The walk -----

  /** One turn of the walk at (i, j): the operation it emits, and where it goes next. */
  function Step(oldLines: seq<string>, newLines: seq<string>, i: nat, j: nat): (DiffLine, nat, nat)
    requires i <= |oldLines| && j <= |newLines| && (i < |oldLines| || j < |newLines|)
  {
    var n, m := |oldLines|, |newLines|;
    if i < n && j < m && oldLines[i] == newLines[j] then
      (DiffLine(Keep, oldLines[i]), i + 1, j + 1)
    else if i < n && (j == m || Lcs(oldLines, newLines, i + 1, j) >= Lcs(oldLines, newLines, i, j + 1)) then
      (DiffLine(Delete, oldLines[i]), i + 1, j)
    else
      (DiffLine(Insert, newLines[j]), i, j + 1)
  }

  /** The script the walk emits from position (i, j) on. */
  function Walk(oldLines: seq<string>, newLines: seq<string>, i: nat, j: nat): seq<DiffLine>
    requires i <= |oldLines| && j <= |newLines|
    decreases |oldLines| - i + |newLines| - j
  {
    if i == |oldLines| && j == |newLines| then
      []
    else
      var (op, i', j') := Step(oldLines, newLines, i, j);
      [op] + Walk(oldLines, newLines, i', j')
  }

  /** Each turn consumes what its operation says, and a kept line is worth one table unit. */
  lemma {:induction false} WalkStep(oldLines: seq<string>, newLines: seq<string>, i: nat, j: nat) returns (op: DiffLine, i': nat, j': nat)
    requires i <= |oldLines| && j <= |newLines| && (i < |oldLines| || j < |newLines|)
    ensures (op, i', j') == Step(oldLines, newLines, i, j)
    ensures i <= i' <= |oldLines| && j <= j' <= |newLines| && i + j < i' + j'
    ensures Walk(oldLines, newLines, i, j) == [op] + Walk(oldLines, newLines, i', j')
    ensures OldPart(op) + oldLines[i'..] == oldLines[i..]
    ensures NewPart(op) + newLines[j'..] == newLines[j..]
    ensures Lcs(oldLines, newLines, i, j) == Lcs(oldLines, newLines, i', j') + if op.kind == Keep then 1 else 0
  {
    var step := Step(oldLines, newLines, i, j);
    op, i', j' := step.0, step.1, step.2;
  }

  lemma {:induction false} WalkProjects(oldLines: seq<string>, newLines: seq<string>, i: nat, j: nat)
    requires i <= |oldLines| && j <= |newLines|
    ensures var ops := Walk(oldLines, newLines, i, j);
            && OldLines(ops) == oldLines[i..]
            && NewLines(ops) == newLines[j..]
            && |KeptLines(ops)| == Lcs(oldLines, newLines, i, j)
    decreases |oldLines| - i + |newLines| - j
  {
    if i < |oldLines| || j < |newLines| {
      var op, i', j' := WalkStep(oldLines, newLines, i, j);
      WalkProjects(oldLines, newLines, i', j');
      var rest := Walk(oldLines, newLines, i', j');
      assert ([op] + rest)[1..] == rest;
    }
  }

  /** The kept lines of any script are a common subsequence of its two projections. */
  lemma {:induction false} KeptIsCommon(ops: seq<DiffLine>)
    ensures GreedySub(KeptLines(ops), OldLines(ops)) && GreedySub(KeptLines(ops), NewLines(ops))
  {
    if |ops| > 0 {
      KeptIsCommon(ops[1..]);
      var kept := KeptLines(ops[1..]);
      match ops[0].kind
      case Keep =>
        assert KeptLines(ops)[1..] == kept;
        assert OldLines(ops)[1..] == OldLines(ops[1..]);
        assert NewLines(ops)[1..] == NewLines(ops[1..]);
      case Delete =>
        GreedyPrepend(kept, OldLines(ops[1..]), ops[0].text);
        assert NewLines(ops) == NewLines(ops[1..]);
        assert OldLines(ops) == [ops[0].text] + OldLines(ops[1..]);
      case Insert =>
        GreedyPrepend(kept, NewLines(ops[1..]), ops[0].text);
        assert OldLines(ops) == OldLines(ops[1..]);
        assert NewLines(ops) == [ops[0].text] + NewLines(ops[1..]);
    }
  }

  lemma {:induction false} GreedyPrepend(s: seq<string>, t: seq<string>, x: string)
    requires GreedySub(s, t)
    ensures GreedySub(s, [x] + t)
    decreases |t|, 1
  {
    assert ([x] + t)[1..] == t;
    if |s| > 0 && s[0] == x {
      GreedyTail(s, t);
    }
  }

  lemma {:induction false} GreedyTail(s: seq<string>, t: seq<string>)
    requires |s| > 0 && GreedySub(s, t)
    ensures GreedySub(s[1..], t)
    decreases |t|, 0
  {
    if s[0] == t[0] {
      GreedyPrepend(s[1..], t[1..], t[0]);
      assert t == [t[0]] + t[1..];
    } else {
      GreedyTail(s, t[1..]);
      GreedyPrepend(s[1..], t[1..], t[0]);
      assert t == [t[0]] + t[1..];
    }
  }

  lemma {:induction false} GreedyIsEmbedded(s: seq<string>, t: seq<string>) returns (index: seq<int>)
    requires GreedySub(s, t)
    ensures Embeds(s, t, index)
  {
    if |s| == 0 {
      index := [];
    } else if s[0] == t[0] {
      var rest := GreedyIsEmbedded(s[1..], t[1..]);
      index := [0] + seq(|rest|, k requires 0 <= k < |rest| => rest[k] + 1);
      forall k | 0 <= k < |s| ensures 0 <= index[k] < |t| && t[index[k]] == s[k] {
        if k > 0 { assert s[k] == s[1..][k - 1] && t[1..][rest[k - 1]] == s[1..][k - 1]; }
      }
    } else {
      var rest := GreedyIsEmbedded(s, t[1..]);
      index := seq(|rest|, k requires 0 <= k < |rest| => rest[k] + 1);
      forall k | 0 <= k < |s| ensures 0 <= index[k] < |t| && t[index[k]] == s[k] {
        assert t[1..][rest[k]] == s[k];
      }
    }
  }

  // ----- The differ -----

  function AllDeleted(lines: seq<string>): (ops: seq<DiffLine>)
    ensures |ops| == |lines|
  {
    seq(|lines|, k requires 0 <= k < |lines| => DiffLine(Delete, lines[k]))
  }

  function AllInserted(lines: seq<string>): (ops: seq<DiffLine>)
    ensures |ops| == |lines|
  {
    seq(|lines|, k requires 0 <= k < |lines| => DiffLine(Insert, lines[k]))
  }

  /** The script that lineDiff returns. */
  function Script(oldLines: seq<string>, newLines: seq<string>): seq<DiffLine> {
    if |oldLines| * |newLines| > TABLE_LIMIT then AllDeleted(oldLines) + AllInserted(newLines)
    else Walk(oldLines, newLines, 0, 0)
  }

  lemma {:induction false} ReplacementProjects(oldLines: seq<string>, newLines: seq<string>)
    ensures OldLines(AllDeleted(oldLines)) == oldLines && NewLines(AllDeleted(oldLines)) == []
    ensures OldLines(AllInserted(newLines)) == [] && NewLines(AllInserted(newLines)) == newLines
    decreases |oldLines| + |newLines|
  {
    if |oldLines| > 0 {
      ReplacementProjects(oldLines[1..], newLines);
      assert AllDeleted(oldLines)[1..] == AllDeleted(oldLines[1..]);
    } else if |newLines| > 0 {
      ReplacementProjects(oldLines, newLines[1..]);
      assert AllInserted(newLines)[1..] == AllInserted(newLines[1..]);
    }
  }

  /** On every input, above the table limit or not, the script turns the old lines into the new ones. */
  lemma {:induction false} ScriptProjects(oldLines: seq<string>, newLines: seq<string>)
    ensures OldLines(Script(oldLines, newLines)) == oldLines
    ensures NewLines(Script(oldLines, newLines)) == newLines
  {
    ReplacementProjects(oldLines, newLines);
    OldLinesConcat(AllDeleted(oldLines), AllInserted(newLines));
    NewLinesConcat(AllDeleted(oldLines), AllInserted(newLines));
    WalkProjects(oldLines, newLines, 0, 0);
  }

  /** Within the table limit the script keeps a longest common subsequence. */
  lemma {:induction false} ScriptIsOptimal(oldLines: seq<string>, newLines: seq<string>, s: seq<string>)
    requires |oldLines| * |newLines| <= 4_000_000
    ensures var kept := KeptLines(Script(oldLines, newLines));
            && IsSubsequence(kept, oldLines) && IsSubsequence(kept, newLines)
            && (IsSubsequence(s, oldLines) && IsSubsequence(s, newLines) ==> |s| <= |kept|)
  {
    var ops := Script(oldLines, newLines);
    WalkProjects(oldLines, newLines, 0, 0);
    KeptIsCommon(ops);
    var inOld := GreedyIsEmbedded(KeptLines(ops), oldLines);
    var inNew := GreedyIsEmbedded(KeptLines(ops), newLines);
    if IsSubsequence(s, oldLines) && IsSubsequence(s, newLines) {
      var i :| Embeds(s, oldLines, i);
      var j :| Embeds(s, newLines, j);
      EmbeddedIsGreedy(s, oldLines, i);
      EmbeddedIsGreedy(s, newLines, j);
      assert oldLines[0..] == oldLines && newLines[0..] == newLines;
      LcsBounds(oldLines, newLines, 0, 0, s);
    }
  }

  /** Fills the table bottom-up, exactly as the source's two descending loops do. */
  method FillTable(oldLines: seq<string>, newLines: seq<string>) returns (lcs: array2<int>)
    ensures lcs.Length0 == |oldLines| + 1 && lcs.Length1 == |newLines| + 1
    ensures forall i, j {:trigger lcs[i, j]} :: 0 <= i <= |oldLines| && 0 <= j <= |newLines| ==> lcs[i, j] == Lcs(oldLines, newLines, i, j)
  {
    var n, m := |oldLines|, |newLines|;
    lcs := new int[n + 1, m + 1]((i, j) => 0);
    var oldIndex := n - 1;
    while oldIndex >= 0
      invariant -1 <= oldIndex <= n - 1
      invariant forall i, j {:trigger lcs[i, j]} :: 0 <= i <= n && 0 <= j <= m && (oldIndex < i || j == m) ==>
        lcs[i, j] == Lcs(oldLines, newLines, i, j)
    {
      var newIndex := m - 1;
      while newIndex >= 0
        invariant -1 <= newIndex <= m - 1
        invariant forall i, j {:trigger lcs[i, j]} :: 0 <= i <= n && 0 <= j <= m ==>
          (oldIndex < i || j == m || (i == oldIndex && newIndex < j)) ==> lcs[i, j] == Lcs(oldLines, newLines, i, j)
      {
        if oldLines[oldIndex] == newLines[newIndex] {
          lcs[oldIndex, newIndex] := lcs[oldIndex + 1, newIndex + 1] + 1;
        } else {
          lcs[oldIndex, newIndex] := Max(lcs[oldIndex + 1, newIndex], lcs[oldIndex, newIndex + 1]);
        }
        newIndex := newIndex - 1;
      }
      oldIndex := oldIndex - 1;
    }
  }

  lemma {:induction false} ScriptBounds(oldLines: seq<string>, newLines: seq<string>)
    requires |oldLines| * |newLines| <= TABLE_LIMIT
    ensures forall s :: IsSubsequence(s, oldLines) && IsSubsequence(s, newLines) ==>
      |s| <= |KeptLines(Script(oldLines, newLines))|
  {
    forall s | IsSubsequence(s, oldLines) && IsSubsequence(s, newLines)
      ensures |s| <= |KeptLines(Script(oldLines, newLines))|
    {
      ScriptIsOptimal(oldLines, newLines, s);
    }
  }

  /** lineDiff: a script for the two inputs, and within the limit one that keeps as many lines as possible. */
  method Diff(oldLines: seq<string>, newLines: seq<string>) returns (ops: seq<DiffLine>)
    ensures ops == Script(oldLines, newLines)
    ensures OldLines(ops) == oldLines && NewLines(ops) == newLines
    ensures |oldLines| * |newLines| <= TABLE_LIMIT ==>
      forall s :: IsSubsequence(s, oldLines) && IsSubsequence(s, newLines) ==> |s| <= |KeptLines(ops)|
  {
    ScriptProjects(oldLines, newLines);
    if |oldLines| * |newLines| > TABLE_LIMIT {
      ops := [];
      for k := 0 to |oldLines|
        invariant ops == AllDeleted(oldLines)[..k]
      {
        ops := ops + [DiffLine(Delete, oldLines[k])];
      }
      for k := 0 to |newLines|
        invariant ops == AllDeleted(oldLines) + AllInserted(newLines)[..k]
      {
        ops := ops + [DiffLine(Insert, newLines[k])];
      }
    } else {
      ScriptBounds(oldLines, newLines);
      var lcs := FillTable(oldLines, newLines);
      ops := FollowTable(oldLines, newLines, lcs);
    }
  }

  /** The walk over a filled table. */
  method FollowTable(oldLines: seq<string>, newLines: seq<string>, lcs: array2<int>) returns (ops: seq<DiffLine>)
    requires lcs.Length0 == |oldLines| + 1 && lcs.Length1 == |newLines| + 1
    requires forall i, j {:trigger lcs[i, j]} :: 0 <= i <= |oldLines| && 0 <= j <= |newLines| ==> lcs[i, j] == Lcs(oldLines, newLines, i, j)
    ensures ops == Walk(oldLines, newLines, 0, 0)
  {
    var n, m := |oldLines|, |newLines|;
    ops := [];
    var oldIndex, newIndex := 0, 0;
    ghost var whole := Walk(oldLines, newLines, 0, 0);
    while oldIndex < n || newIndex < m
      invariant 0 <= oldIndex <= n && 0 <= newIndex <= m
      invariant ops + Walk(oldLines, newLines, oldIndex, newIndex) == whole
      decreases n - oldIndex + m - newIndex
    {
      ghost var op, i', j' := WalkStep(oldLines, newLines, oldIndex, newIndex);
      Regroup3(ops, [op], Walk(oldLines, newLines, i', j'));
      if oldIndex < n && newIndex < m && oldLines[oldIndex] == newLines[newIndex] {
        ops := ops + [DiffLine(Keep, oldLines[oldIndex])];
        oldIndex, newIndex := oldIndex + 1, newIndex + 1;
      } else if oldIndex < n && (newIndex == m || lcs[oldIndex + 1, newIndex] >= lcs[oldIndex, newIndex + 1]) {
        ops := ops + [DiffLine(Delete, oldLines[oldIndex])];
        oldIndex := oldIndex + 1;
      } else {
        ops := ops + [DiffLine(Insert, newLines[newIndex])];
        newIndex := newIndex + 1;
      }
    }
  }
}
