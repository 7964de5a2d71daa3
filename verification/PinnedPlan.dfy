/**
 Planning a pinned command again, word by word.

 An absolute path is no flag and no terminator, so wherever an operand stood, any number of absolute paths are
 operands too, and the planner's state after them is what it was after the operand.  The lemmas follow the planner:
 one for the words that are no flags, one for a flag that must be there, one for the words of sed, where a script
 may come first.
 */
module PinnedPlan {
  import opened Text
  import opened CommandPlan

  predicate AllAbsolute(paths: seq<string>) {
    forall i :: 0 <= i < |paths| ==> HasPrefix(paths[i], "/")
  }

  predicate AllGroupsAbsolute(groups: seq<seq<string>>) {
    forall i :: 0 <= i < |groups| ==> AllAbsolute(groups[i])
  }

  lemma {:induction false} AbsoluteIsNoFlag(path: string)
    requires HasPrefix(path, "/")
    ensures path != "--" && !IsFlag(path) && !IsInPlace(path) && !HasPrefix(path, "-e") && !HasPrefix(path, "-f")
    ensures path != "-e" && path != "-f" && path != "-w"
  {
    assert path[0] == '/';
  }

  lemma {:induction false} PathsAreOperands(paths: seq<string>, rest: seq<string>, terminated: bool)
    requires AllAbsolute(paths)
    ensures NonFlag(paths + rest, terminated) == Trues(|paths|) + NonFlag(rest, terminated)
    decreases |paths|
  {
    if |paths| == 0 {
      EmptyConcat(paths, rest);
      EmptyConcat(Trues(0), NonFlag(rest, terminated));
    } else {
      AbsoluteIsNoFlag(paths[0]);
      TailOfConcat(paths, rest);
      assert AllAbsolute(paths[1..]);
      PathsAreOperands(paths[1..], rest, terminated);
      Regroup3([true], Trues(|paths| - 1), NonFlag(rest, terminated));
    }
  }

  lemma {:induction false} GroupsTail(groups: seq<seq<string>>)
    requires AllGroupsAbsolute(groups) && |groups| > 0
    ensures AllAbsolute(groups[0]) && AllGroupsAbsolute(groups[1..])
  {
    assert forall i :: 0 <= i < |groups[1..]| ==> groups[1..][i] == groups[i + 1];
  }

  lemma {:induction false} NonFlagOfPinned(raws: seq<string>, terminated: bool, groups: seq<seq<string>>)
    requires |groups| == CountTrue(NonFlag(raws, terminated)) && AllGroupsAbsolute(groups)
    ensures NonFlag(Pinned(raws, NonFlag(raws, terminated), groups), terminated) == PinnedMarks(NonFlag(raws, terminated), groups)
    decreases |raws|
  {
    if |raws| > 0 {
      var marks := NonFlag(raws, terminated);
      var raw, rest := raws[0], raws[1..];
      if marks[0] {
        GroupsTail(groups);
        assert marks[1..] == NonFlag(rest, terminated);
        NonFlagOfPinned(rest, terminated, groups[1..]);
        PathsAreOperands(groups[0], Pinned(rest, NonFlag(rest, terminated), groups[1..]), terminated);
      } else {
        var terminated' := terminated || raw == "--";
        assert marks[1..] == NonFlag(rest, terminated');
        NonFlagOfPinned(rest, terminated', groups);
        var more := Pinned(rest, NonFlag(rest, terminated'), groups);
        assert ([raw] + more)[0] == raw && ([raw] + more)[1..] == more;
      }
    }
  }

  lemma {:induction false} PathsAreNotFlags(paths: seq<string>, rest: seq<string>, want: string)
    requires AllAbsolute(paths) && want == "-w"
    ensures HasFlag(paths + rest, want) == HasFlag(rest, want)
    decreases |paths|
  {
    if |paths| == 0 {
      EmptyConcat(paths, rest);
    } else {
      AbsoluteIsNoFlag(paths[0]);
      TailOfConcat(paths, rest);
      assert AllAbsolute(paths[1..]);
      PathsAreNotFlags(paths[1..], rest, want);
    }
  }

  lemma {:induction false} FlagOfPinned(raws: seq<string>, groups: seq<seq<string>>)
    requires |groups| == CountTrue(NonFlag(raws, false)) && AllGroupsAbsolute(groups)
    ensures HasFlag(Pinned(raws, NonFlag(raws, false), groups), "-w") == HasFlag(raws, "-w")
    decreases |raws|
  {
    if |raws| > 0 && raws[0] != "--" {
      var marks := NonFlag(raws, false);
      var raw, rest := raws[0], raws[1..];
      assert marks[1..] == NonFlag(rest, false);
      if marks[0] {
        GroupsTail(groups);
        FlagOfPinned(rest, groups[1..]);
        PathsAreNotFlags(groups[0], Pinned(rest, NonFlag(rest, false), groups[1..]), "-w");
        assert !IsFlag(raw) && IsFlag("-w");
      } else {
        FlagOfPinned(rest, groups);
        var more := Pinned(rest, NonFlag(rest, false), groups);
        assert ([raw] + more)[0] == raw && ([raw] + more)[1..] == more;
      }
    }
  }

  lemma {:induction false} PathsAreSedOperands(paths: seq<string>, rest: seq<string>, terminated: bool)
    requires AllAbsolute(paths)
    ensures SedOperands(paths + rest, terminated, true) == SedPrepend(Trues(|paths|), false, SedOperands(rest, terminated, true))
    decreases |paths|
  {
    if |paths| == 0 {
      EmptyConcat(paths, rest);
      var shape := SedOperands(rest, terminated, true);
      if shape.Some? { EmptyConcat(Trues(0), shape.value.marks); }
    } else {
      AbsoluteIsNoFlag(paths[0]);
      TailOfConcat(paths, rest);
      assert AllAbsolute(paths[1..]);
      PathsAreSedOperands(paths[1..], rest, terminated);
      var shape := SedOperands(rest, terminated, true);
      if shape.Some? { Regroup3([true], Trues(|paths| - 1), shape.value.marks); }
    }
  }

  /** How sed reads its first word: what it takes with it, whether that is an operand, and the flags from then on. */
  datatype SedStep = SedStep(words: nat, mark: bool, inPlace: bool, terminated: bool, sawScript: bool)

  function SedRead(raws: seq<string>, terminated: bool, sawScript: bool): Option<SedStep>
    requires |raws| > 0
  {
    var raw := raws[0];
    if !terminated && raw == "--" then Some(SedStep(1, false, false, true, sawScript))
    else if !terminated && IsInPlace(raw) then Some(SedStep(1, false, true, terminated, sawScript))
    else if !terminated && (raw == "-e" || raw == "-f") then
      if |raws| == 1 then None else Some(SedStep(2, false, false, terminated, true))
    else if !terminated && (HasPrefix(raw, "-e") || HasPrefix(raw, "-f")) then Some(SedStep(1, false, false, terminated, true))
    else if !terminated && IsFlag(raw) then Some(SedStep(1, false, false, terminated, sawScript))
    else if !sawScript then Some(SedStep(1, false, false, terminated, true))
    else Some(SedStep(1, true, false, terminated, sawScript))
  }

  function Marked(step: SedStep): seq<bool> {
    if step.words == 2 then [false, false] else [step.mark]
  }

  lemma {:induction false} SedUnfold(raws: seq<string>, terminated: bool, sawScript: bool)
    requires |raws| > 0
    ensures var step := SedRead(raws, terminated, sawScript);
            && (step.Some? ==> 1 <= step.value.words <= 2 && step.value.words <= |raws| && (step.value.words == 2 ==> !step.value.mark))
            && SedOperands(raws, terminated, sawScript)
            == if step.None? then None
               else SedPrepend(Marked(step.value), step.value.inPlace,
                               SedOperands(raws[step.value.words..], step.value.terminated, step.value.sawScript))
  {
    if |raws| > 1 {
      assert raws[1..][1..] == raws[2..];
    }
  }

  /** Words that are no operands stay where they are. */
  lemma {:induction false} PinnedKeeps(raws: seq<string>, n: nat, marks: seq<bool>, groups: seq<seq<string>>)
    requires 1 <= n <= 2 && n <= |raws| && |marks| == |raws| - n
    requires |groups| == CountTrue(marks)
    ensures var all := (if n == 2 then [false, false] else [false]) + marks;
            && |groups| == CountTrue(all)
            && Pinned(raws, all, groups) == raws[..n] + Pinned(raws[n..], marks, groups)
            && PinnedMarks(all, groups) == (if n == 2 then [false, false] else [false]) + PinnedMarks(marks, groups)
  {
    if n == 1 {
      assert ([false] + marks)[1..] == marks;
    } else {
      var all := [false, false] + marks;
      assert all[1..] == [false] + marks && all[1..][1..] == marks && raws[1..][1..] == raws[2..];
      var rest := Pinned(raws[2..], marks, groups);
      assert raws[..2] == [raws[0]] + [raws[1]];
      Regroup3([raws[0]], [raws[1]], rest);
      Regroup3([false], [false], PinnedMarks(marks, groups));
      assert [false, false] == [false] + [false];
    }
  }

  lemma {:induction false} SameFirstWords(raws: seq<string>, n: nat, rest: seq<string>, rest': seq<string>, terminated: bool, sawScript: bool)
    requires 1 <= n <= 2 && n <= |raws| && rest == raws[n..]
    requires var step := SedRead(raws, terminated, sawScript); step.Some? && step.value.words == n && !step.value.mark
    ensures var raws' := raws[..n] + rest';
            raws'[n..] == rest' && SedRead(raws', terminated, sawScript) == SedRead(raws, terminated, sawScript)
  {
    var raws' := raws[..n] + rest';
    assert raws'[0] == raws[0];
  }

  lemma {:induction false} SedOfPinned(raws: seq<string>, terminated: bool, sawScript: bool, groups: seq<seq<string>>)
    requires SedOperands(raws, terminated, sawScript).Some? && AllGroupsAbsolute(groups)
    requires |groups| == CountTrue(SedOperands(raws, terminated, sawScript).value.marks)
    ensures var shape := SedOperands(raws, terminated, sawScript).value;
            SedOperands(Pinned(raws, shape.marks, groups), terminated, sawScript)
            == Some(SedShape(PinnedMarks(shape.marks, groups), shape.inPlace))
    decreases |raws|
  {
    if |raws| > 0 {
      hide SedOperands, SedRead;
      SedUnfold(raws, terminated, sawScript);
      var step := SedRead(raws, terminated, sawScript).value;
      var rest := raws[step.words..];
      var shape := SedOperands(rest, step.terminated, step.sawScript).value;
      if step.mark {
        SedMarkMeansOperand(raws, terminated, sawScript);
        assert ([true] + shape.marks)[1..] == shape.marks;
        GroupsTail(groups);
        SedOfPinned(rest, step.terminated, step.sawScript, groups[1..]);
        PathsAreSedOperands(groups[0], Pinned(rest, shape.marks, groups[1..]), terminated);
      } else {
        CountUnmarked(step.words, shape.marks);
        PinnedKeeps(raws, step.words, shape.marks, groups);
        SedOfPinned(rest, step.terminated, step.sawScript, groups);
        var rest' := Pinned(rest, shape.marks, groups);
        SameFirstWords(raws, step.words, rest, rest', terminated, sawScript);
        SedUnfold(raws[..step.words] + rest', terminated, sawScript);
      }
    } else {
      assert SedOperands([], terminated, sawScript) == Some(SedShape([], false));
      assert raws == [];
    }
  }

  lemma {:induction false} SedMarkMeansOperand(raws: seq<string>, terminated: bool, sawScript: bool)
    requires |raws| > 0 && SedRead(raws, terminated, sawScript).Some? && SedRead(raws, terminated, sawScript).value.mark
    ensures var step := SedRead(raws, terminated, sawScript).value;
            sawScript && step.words == 1 && !step.inPlace && step.terminated == terminated && step.sawScript
  {
  }

  lemma {:induction false} CountUnmarked(n: nat, marks: seq<bool>)
    requires 1 <= n <= 2
    ensures CountTrue((if n == 2 then [false, false] else [false]) + marks) == CountTrue(marks)
  {
    if n == 1 {
      assert ([false] + marks)[1..] == marks;
    } else {
      var all := [false, false] + marks;
      assert all[1..] == [false] + marks && all[1..][1..] == marks;
    }
  }

  // ----- The whole command -----

  lemma {:induction false} TrueInConcat(a: seq<bool>, b: seq<bool>)
    ensures true in a + b <==> true in a || true in b
  {
  }

  lemma {:induction false} PinnedHasOperand(marks: seq<bool>, groups: seq<seq<string>>)
    requires |groups| == CountTrue(marks)
    ensures true in PinnedMarks(marks, groups) <==> Flat(groups) != []
  {
    if |marks| > 0 {
      if marks[0] {
        PinnedHasOperand(marks[1..], groups[1..]);
        TrueInConcat(Trues(|groups[0]|), PinnedMarks(marks[1..], groups[1..]));
        TruesAreTrue(|groups[0]|);
        assert |groups[0] + Flat(groups[1..])| == |groups[0]| + |Flat(groups[1..])|;
      } else {
        PinnedHasOperand(marks[1..], groups);
        TrueInConcat([false], PinnedMarks(marks[1..], groups));
      }
    }
  }

  lemma {:induction false} TruesAreTrue(n: nat)
    ensures |Trues(n)| == n && (true in Trues(n) <==> n > 0)
  {
    if n > 0 {
      TruesAreTrue(n - 1);
      assert Trues(n)[0];
    }
  }

  lemma {:induction false} PinnedLength(raws: seq<string>, marks: seq<bool>, groups: seq<seq<string>>)
    requires |marks| == |raws| && |groups| == CountTrue(marks)
    ensures |Pinned(raws, marks, groups)| == |PinnedMarks(marks, groups)|
  {
    if |raws| > 0 {
      if marks[0] {
        PinnedLength(raws[1..], marks[1..], groups[1..]);
        TruesAreTrue(|groups[0]|);
      } else {
        PinnedLength(raws[1..], marks[1..], groups);
      }
    }
  }

  lemma {:induction false} OperandsConcat(a: seq<string>, x: seq<bool>, b: seq<string>, y: seq<bool>)
    requires |a| == |x| && |b| == |y|
    ensures Operands(a + b, x + y) == Operands(a, x) + Operands(b, y)
    decreases |a|
  {
    if |a| == 0 {
      EmptyConcat(a, b);
      EmptyConcat(x, y);
      EmptyConcat(Operands(a, x), Operands(b, y));
    } else {
      TailOfConcat(a, b);
      TailOfConcat(x, y);
      OperandsConcat(a[1..], x[1..], b, y);
      Regroup3(if x[0] then [a[0]] else [], Operands(a[1..], x[1..]), Operands(b, y));
    }
  }

  lemma {:induction false} AllMarked(paths: seq<string>)
    ensures |Trues(|paths|)| == |paths| && Operands(paths, Trues(|paths|)) == paths
  {
    TruesAreTrue(|paths|);
    if |paths| > 0 {
      AllMarked(paths[1..]);
      assert Trues(|paths|)[1..] == Trues(|paths| - 1);
      assert paths == [paths[0]] + paths[1..];
    }
  }

  /** The operands of the pinned command are the captured paths, in order. */
  lemma {:induction false} PinnedOperands(raws: seq<string>, marks: seq<bool>, groups: seq<seq<string>>)
    requires |marks| == |raws| && |groups| == CountTrue(marks)
    ensures |Pinned(raws, marks, groups)| == |PinnedMarks(marks, groups)|
    ensures Operands(Pinned(raws, marks, groups), PinnedMarks(marks, groups)) == Flat(groups)
  {
    PinnedLength(raws, marks, groups);
    if |raws| > 0 {
      if marks[0] {
        var rest, more := Pinned(raws[1..], marks[1..], groups[1..]), PinnedMarks(marks[1..], groups[1..]);
        PinnedOperands(raws[1..], marks[1..], groups[1..]);
        AllMarked(groups[0]);
        OperandsConcat(groups[0], Trues(|groups[0]|), rest, more);
      } else {
        PinnedOperands(raws[1..], marks[1..], groups);
        var rest, more := Pinned(raws[1..], marks[1..], groups), PinnedMarks(marks[1..], groups);
        assert ([raws[0]] + rest)[1..] == rest && Prepend(false, more)[1..] == more;
      }
    }
  }

  lemma {:induction false} PinnedBehindFirst(raws: seq<string>, marks: seq<bool>, groups: seq<seq<string>>)
    requires |raws| > 0 && |marks| == |raws| - 1 && |groups| == CountTrue(Prepend(false, marks))
    ensures |groups| == CountTrue(marks)
    ensures Pinned(raws, Prepend(false, marks), groups) == [raws[0]] + Pinned(raws[1..], marks, groups)
    ensures PinnedMarks(Prepend(false, marks), groups) == Prepend(false, PinnedMarks(marks, groups))
    ensures ([raws[0]] + Pinned(raws[1..], marks, groups))[1..] == Pinned(raws[1..], marks, groups)
  {
    assert Prepend(false, marks)[1..] == marks;
  }

  lemma {:induction false} ShapeOfPinned(raws: seq<string>, groups: seq<seq<string>>)
    requires ShapeOf(raws).Some? && AllGroupsAbsolute(groups)
    requires |groups| == CountTrue(ShapeOf(raws).value.marks)
    ensures var shape := ShapeOf(raws).value;
            ShapeOf(Pinned(raws, shape.marks, groups)) == Some(Shape(shape.effect, PinnedMarks(shape.marks, groups)))
  {
    hide Pinned, PinnedMarks, NonFlag, SedOperands, HasFlag, CountTrue;
    var rest := raws[1..];
    if raws[0] == "sed" {
      var sed := SedOperands(rest, false, false).value;
      PinnedBehindFirst(raws, sed.marks, groups);
      SedOfPinned(rest, false, false, groups);
    } else if raws[0] == "go" {
      var marks := NonFlag(raws[2..], false);
      PinnedBehindFirst(raws, Prepend(false, marks), groups);
      PinnedBehindFirst(rest, marks, groups);
      assert rest[1..] == raws[2..];
      NonFlagOfPinned(raws[2..], false, groups);
      var more := Pinned(raws[2..], marks, groups);
      assert ([raws[0]] + ([rest[0]] + more))[2..] == more;
    } else {
      var marks := NonFlag(rest, false);
      PinnedBehindFirst(raws, marks, groups);
      NonFlagOfPinned(rest, false, groups);
      FlagOfPinned(rest, groups);
    }
  }
}
