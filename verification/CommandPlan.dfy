/** The planner: which words of a mutator that it knows are operands, and the words that pinning puts there. */
module CommandPlan {
  import opened Text
  import opened ShellWords

  // ----- The planner -----

  datatype Effect = Delete | Rename | Edit

  /** Which words are operands; the first one never is. */
  datatype Shape = Shape(effect: Effect, marks: seq<bool>)

  predicate IsFlag(raw: string) {
    HasPrefix(raw, "-") && raw != "-"
  }

  function Prepend(mark: bool, marks: seq<bool>): seq<bool> {
    [mark] + marks
  }

  /** Operands are the words that are no flags, and all after the first "--". */
  function NonFlag(raws: seq<string>, terminated: bool): (marks: seq<bool>)
    ensures |marks| == |raws|
  {
    if |raws| == 0 then []
    else if !terminated && raws[0] == "--" then Prepend(false, NonFlag(raws[1..], true))
    else if !terminated && IsFlag(raws[0]) then Prepend(false, NonFlag(raws[1..], terminated))
    else Prepend(true, NonFlag(raws[1..], terminated))
  }

  predicate HasFlag(raws: seq<string>, want: string) {
    |raws| > 0 && raws[0] != "--" && (raws[0] == want || HasFlag(raws[1..], want))
  }

  predicate IsInPlace(raw: string) {
    HasPrefix(raw, "-i") || raw == "--in-place" || HasPrefix(raw, "--in-place=")
  }

  datatype SedShape = SedShape(marks: seq<bool>, inPlace: bool)

  function SedPrepend(marks: seq<bool>, inPlace: bool, rest: Option<SedShape>): Option<SedShape> {
    if rest.None? then None else Some(SedShape(marks + rest.value.marks, inPlace || rest.value.inPlace))
  }

  /** Operands of sed: what follows the script, which -e or -f may have given. */
  function SedOperands(raws: seq<string>, terminated: bool, sawScript: bool): (shape: Option<SedShape>)
    ensures shape.Some? ==> |shape.value.marks| == |raws|
    decreases |raws|
  {
    if |raws| == 0 then Some(SedShape([], false))
    else
      var raw, rest := raws[0], raws[1..];
      if !terminated && raw == "--" then SedPrepend([false], false, SedOperands(rest, true, sawScript))
      else if !terminated && IsInPlace(raw) then SedPrepend([false], true, SedOperands(rest, terminated, sawScript))
      else if !terminated && (raw == "-e" || raw == "-f") then
        if |rest| == 0 then None else SedPrepend([false, false], false, SedOperands(rest[1..], terminated, true))
      else if !terminated && (HasPrefix(raw, "-e") || HasPrefix(raw, "-f")) then
        SedPrepend([false], false, SedOperands(rest, terminated, true))
      else if !terminated && IsFlag(raw) then SedPrepend([false], false, SedOperands(rest, terminated, sawScript))
      else if !sawScript then SedPrepend([false], false, SedOperands(rest, terminated, true))
      else SedPrepend([true], false, SedOperands(rest, terminated, sawScript))
  }

  function ShapeOf(raws: seq<string>): (shape: Option<Shape>)
    ensures shape.Some? ==> |shape.value.marks| == |raws|
  {
    if |raws| == 0 then None
    else if raws[0] == "rm" || raws[0] == "unlink" then Some(Shape(Delete, Prepend(false, NonFlag(raws[1..], false))))
    else if raws[0] == "mv" then Some(Shape(Rename, Prepend(false, NonFlag(raws[1..], false))))
    else if raws[0] == "sed" then
      var sed := SedOperands(raws[1..], false, false);
      if sed.None? || !sed.value.inPlace then None else Some(Shape(Edit, Prepend(false, sed.value.marks)))
    else if raws[0] == "gofmt" then
      if HasFlag(raws[1..], "-w") then Some(Shape(Edit, Prepend(false, NonFlag(raws[1..], false)))) else None
    else if raws[0] == "go" && |raws| > 1 && raws[1] == "fmt" then
      Some(Shape(Edit, Prepend(false, Prepend(false, NonFlag(raws[2..], false)))))
    else None
  }

  function Raws(tokens: seq<Token>): seq<string> {
    if |tokens| == 0 then [] else [tokens[0].raw] + Raws(tokens[1..])
  }

  /** The plan of a command: what it does, and which words it does it to; none without an operand. */
  function PlanOf(raws: seq<string>): (shape: Option<Shape>)
    ensures shape.Some? ==> |shape.value.marks| == |raws|
  {
    var shape := ShapeOf(raws);
    if shape.Some? && true in shape.value.marks then shape else None
  }

  function PlanGlobMutation(command: string): (shape: Option<Shape>)
    ensures shape.Some? ==> Tokenize(command).Some? && |shape.value.marks| == |Raws(Tokenize(command).value)|
  {
    var tokens := Tokenize(command);
    if tokens.None? then None else PlanOf(Raws(tokens.value))
  }

  /** The marks as the list of positions that the planner builds. */
  function Positions(marks: seq<bool>, from: nat): seq<nat> {
    if |marks| == 0 then [] else (if marks[0] then [from] else []) + Positions(marks[1..], from + 1)
  }

  method NonFlagPositions(raws: seq<string>, from: nat) returns (indexes: seq<nat>)
    requires from <= |raws|
    ensures indexes == Positions(NonFlag(raws[from..], false), from)
  {
    hide NonFlag, Positions, IsFlag;
    indexes := [];
    var terminated := false;
    EmptyConcat([], Positions(NonFlag(raws[from..], false), from));
    for index := from to |raws|
      invariant indexes + Positions(NonFlag(raws[index..], terminated), index) == Positions(NonFlag(raws[from..], false), from)
    {
      var raw := raws[index];
      OneWord(raws, index, terminated);
      if !terminated && raw == "--" {
        terminated := true;
        continue;
      }
      if !terminated && IsFlag(raw) {
        continue;
      }
      Regroup3(indexes, [index], Positions(NonFlag(raws[index + 1..], terminated), index + 1));
      indexes := indexes + [index];
    }
    NoWord(raws[|raws|..], |raws|, terminated);
    assert indexes + [] == indexes;
  }

  lemma {:induction false} OneWord(raws: seq<string>, index: nat, terminated: bool)
    requires index < |raws|
    ensures Positions(NonFlag(raws[index..], terminated), index)
         == if !terminated && raws[index] == "--" then Positions(NonFlag(raws[index + 1..], true), index + 1)
            else if !terminated && IsFlag(raws[index]) then Positions(NonFlag(raws[index + 1..], terminated), index + 1)
            else [index] + Positions(NonFlag(raws[index + 1..], terminated), index + 1)
  {
    hide Positions;
    assert raws[index..][0] == raws[index] && raws[index..][1..] == raws[index + 1..];
    PositionsHead(false, NonFlag(raws[index + 1..], true), index);
    PositionsHead(false, NonFlag(raws[index + 1..], terminated), index);
    PositionsHead(true, NonFlag(raws[index + 1..], terminated), index);
  }

  lemma {:induction false} NoWord(raws: seq<string>, index: nat, terminated: bool)
    requires raws == []
    ensures Positions(NonFlag(raws, terminated), index) == []
  {
  }

  lemma {:induction false} PositionsHead(mark: bool, marks: seq<bool>, from: nat)
    ensures Positions(Prepend(mark, marks), from) == if mark then [from] + Positions(marks, from + 1) else Positions(marks, from + 1)
  {
    assert Prepend(mark, marks)[1..] == marks;
    EmptyConcat([], Positions(marks, from + 1));
  }

  /** The plan as the planner builds it: what the command does, and the positions of its operands. */
  datatype Plan = Plan(effect: Effect, operands: seq<nat>)

  function AsPlan(shape: Option<Shape>): Option<Plan> {
    if shape.None? then None else Some(Plan(shape.value.effect, Positions(shape.value.marks, 0)))
  }

  method FindFlag(raws: seq<string>, from: nat, want: string) returns (has: bool)
    requires from <= |raws|
    ensures has == HasFlag(raws[from..], want)
  {
    for index := from to |raws|
      invariant HasFlag(raws[index..], want) == HasFlag(raws[from..], want)
    {
      assert raws[index..][0] == raws[index] && raws[index..][1..] == raws[index + 1..];
      if raws[index] == "--" {
        return false;
      }
      if raws[index] == want {
        return true;
      }
    }
    return false;
  }

  /** Operands found so far, then those of what is left from `index` on. */
  function SedAfter(operands: seq<nat>, inPlace: bool, shape: Option<SedShape>, index: nat): Option<(seq<nat>, bool)> {
    if shape.None? then None else Some((operands + Positions(shape.value.marks, index), inPlace || shape.value.inPlace))
  }

  lemma {:induction false} SedAfterWord(operands: seq<nat>, inPlace: bool, more: bool, rest: Option<SedShape>, index: nat)
    ensures SedAfter(operands, inPlace, SedPrepend([false], more, rest), index) == SedAfter(operands, inPlace || more, rest, index + 1)
    ensures SedAfter(operands, inPlace, SedPrepend([false, false], more, rest), index) == SedAfter(operands, inPlace || more, rest, index + 2)
    ensures SedAfter(operands, inPlace, SedPrepend([true], more, rest), index)
         == SedAfter(operands + [index], inPlace || more, rest, index + 1)
  {
    if rest.Some? {
      var marks := rest.value.marks;
      assert [false] + marks == Prepend(false, marks) && [true] + marks == Prepend(true, marks);
      assert [false, false] + marks == Prepend(false, Prepend(false, marks));
      PositionsHead(false, marks, index);
      PositionsHead(true, marks, index);
      PositionsHead(false, Prepend(false, marks), index);
      PositionsHead(false, marks, index + 1);
      Regroup3(operands, [index], Positions(marks, index + 1));
    }
  }

  /** The loop over the words of sed, with its flags for the end of options, a script seen, and `-i`. */
  method SedPositions(raws: seq<string>, from: nat) returns (found: Option<(seq<nat>, bool)>)
    requires from <= |raws|
    ensures found == SedAfter([], false, SedOperands(raws[from..], false, false), from)
  {
    hide SedPrepend, SedAfter, HasPrefix;
    var indexes: seq<nat> := [];
    var terminated, sawScript, inPlace := false, false, false;
    var index := from;
    while index < |raws|
      invariant from <= index <= |raws|
      invariant SedAfter(indexes, inPlace, SedOperands(raws[index..], terminated, sawScript), index)
             == SedAfter([], false, SedOperands(raws[from..], false, false), from)
    {
      var raw := raws[index];
      assert raws[index..][0] == raw && raws[index..][1..] == raws[index + 1..];
      SedSteps(indexes, inPlace, raws, index);
      index := index + 1;
      if !terminated && raw == "--" {
        terminated := true;
        continue;
      }
      if !terminated {
        if IsInPlace(raw) {
          inPlace := true;
          continue;
        }
        if raw == "-e" || raw == "-f" {
          if index >= |raws| {
            return None;
          }
          index := index + 1;
          sawScript := true;
          continue;
        }
        if HasPrefix(raw, "-e") || HasPrefix(raw, "-f") {
          sawScript := true;
          continue;
        }
        if IsFlag(raw) {
          continue;
        }
      }
      if !sawScript {
        sawScript := true;
        continue;
      }
      indexes := indexes + [index - 1];
    }
    assert raws[|raws|..] == [];
    NoWordsLeft(indexes, inPlace, terminated, sawScript, index);
    return Some((indexes, inPlace));
  }

  lemma {:induction false} NoWordsLeft(operands: seq<nat>, inPlace: bool, terminated: bool, sawScript: bool, index: nat)
    ensures SedAfter(operands, inPlace, SedOperands([], terminated, sawScript), index) == Some((operands, inPlace))
    ensures SedAfter(operands, inPlace, None, index) == None
  {
    assert operands + [] == operands;
  }

  /** What any word does to the state of the loop. */
  lemma {:induction false} SedSteps(operands: seq<nat>, inPlace: bool, raws: seq<string>, index: nat)
    requires index < |raws|
    ensures SedAfter(operands, inPlace, None, index) == None
    ensures forall more, rest :: SedAfter(operands, inPlace, SedPrepend([false], more, rest), index)
                              == SedAfter(operands, inPlace || more, rest, index + 1)
    ensures forall more, rest :: SedAfter(operands, inPlace, SedPrepend([false, false], more, rest), index)
                              == SedAfter(operands, inPlace || more, rest, index + 2)
    ensures forall more, rest :: SedAfter(operands, inPlace, SedPrepend([true], more, rest), index)
                              == SedAfter(operands + [index], inPlace || more, rest, index + 1)
    ensures index + 1 < |raws| ==> raws[index + 1..][1..] == raws[index + 2..]
  {
    forall more, rest
      ensures SedAfter(operands, inPlace, SedPrepend([false], more, rest), index) == SedAfter(operands, inPlace || more, rest, index + 1)
      ensures SedAfter(operands, inPlace, SedPrepend([false, false], more, rest), index) == SedAfter(operands, inPlace || more, rest, index + 2)
      ensures SedAfter(operands, inPlace, SedPrepend([true], more, rest), index)
           == SedAfter(operands + [index], inPlace || more, rest, index + 1)
    {
      SedAfterWord(operands, inPlace, more, rest, index);
    }
  }

  lemma {:induction false} NoPositions(marks: seq<bool>, from: nat)
    ensures Positions(marks, from) == [] <==> true !in marks
  {
    if |marks| > 0 {
      NoPositions(marks[1..], from + 1);
      assert marks == [marks[0]] + marks[1..];
    }
  }

  /** planGlobMutation, from the words on. */
  method PlanWords(raws: seq<string>) returns (plan: Option<Plan>)
    ensures plan == AsPlan(PlanOf(raws))
  {
    hide NonFlag, SedOperands, HasFlag, Positions;
    var shape := ShapeOf(raws);
    if shape.Some? {
      NoPositions(shape.value.marks, 0);
    }
    if |raws| == 0 {
      return None;
    }
    PositionsHead(false, NonFlag(raws[1..], false), 0);
    var effect, operands := Delete, [];
    if raws[0] == "rm" || raws[0] == "unlink" {
      operands := NonFlagPositions(raws, 1);
    } else if raws[0] == "mv" {
      effect := Rename;
      operands := NonFlagPositions(raws, 1);
    } else if raws[0] == "sed" {
      var found := SedPositions(raws, 1);
      if found.None? || !found.value.1 {
        return None;
      }
      PositionsHead(false, SedOperands(raws[1..], false, false).value.marks, 0);
      EmptyConcat([], Positions(SedOperands(raws[1..], false, false).value.marks, 1));
      effect, operands := Edit, found.value.0;
    } else if raws[0] == "gofmt" {
      var write := FindFlag(raws, 1, "-w");
      if !write {
        return None;
      }
      effect := Edit;
      operands := NonFlagPositions(raws, 1);
    } else if raws[0] == "go" {
      if |raws| < 2 || raws[1] != "fmt" {
        return None;
      }
      PositionsHead(false, Prepend(false, NonFlag(raws[2..], false)), 0);
      PositionsHead(false, NonFlag(raws[2..], false), 1);
      effect := Edit;
      operands := NonFlagPositions(raws, 2);
    } else {
      return None;
    }
    if |operands| == 0 {
      return None;
    }
    return Some(Plan(effect, operands));
  }

  // ----- Pinning -----

  function Trues(n: nat): seq<bool> {
    if n == 0 then [] else Prepend(true, Trues(n - 1))
  }

  function CountTrue(marks: seq<bool>): nat {
    if |marks| == 0 then 0 else (if marks[0] then 1 else 0) + CountTrue(marks[1..])
  }

  lemma {:induction false} PositionsAreMarks(marks: seq<bool>, from: nat)
    ensures |Positions(marks, from)| == CountTrue(marks)
    ensures forall k :: 0 <= k < |Positions(marks, from)| ==>
              from <= Positions(marks, from)[k] < from + |marks| && marks[Positions(marks, from)[k] - from]
    ensures forall k, l :: 0 <= k < l < |Positions(marks, from)| ==> Positions(marks, from)[k] < Positions(marks, from)[l]
  {
    if |marks| > 0 {
      PositionsAreMarks(marks[1..], from + 1);
      var rest := Positions(marks[1..], from + 1);
      assert forall k :: 0 <= k < |rest| ==> marks[1..][rest[k] - from - 1] == marks[rest[k] - from];
    }
  }

  /** The position of a marked word, by how many marks come before it. */
  lemma {:induction false} PositionOfMark(marks: seq<bool>, from: nat, i: nat)
    requires i < |marks| && marks[i]
    ensures CountTrue(marks[..i]) < |Positions(marks, from)| && Positions(marks, from)[CountTrue(marks[..i])] == from + i
  {
    if i > 0 {
      PositionOfMark(marks[1..], from + 1, i - 1);
      assert marks[..i][1..] == marks[1..][..i - 1];
    }
  }

  /** Every operand gives way to the paths captured for it. */
  function Pinned(raws: seq<string>, marks: seq<bool>, groups: seq<seq<string>>): seq<string>
    requires |marks| == |raws| && |groups| == CountTrue(marks)
  {
    if |raws| == 0 then []
    else if marks[0] then groups[0] + Pinned(raws[1..], marks[1..], groups[1..])
    else [raws[0]] + Pinned(raws[1..], marks[1..], groups)
  }

  /** Which words of the pinned command are operands. */
  function PinnedMarks(marks: seq<bool>, groups: seq<seq<string>>): seq<bool>
    requires |groups| == CountTrue(marks)
  {
    if |marks| == 0 then []
    else if marks[0] then Trues(|groups[0]|) + PinnedMarks(marks[1..], groups[1..])
    else Prepend(false, PinnedMarks(marks[1..], groups))
  }

  function Flat(groups: seq<seq<string>>): seq<string> {
    if |groups| == 0 then [] else groups[0] + Flat(groups[1..])
  }

  /** The words that are marked. */
  function Operands(raws: seq<string>, marks: seq<bool>): seq<string>
    requires |marks| == |raws|
  {
    if |raws| == 0 then []
    else (if marks[0] then [raws[0]] else []) + Operands(raws[1..], marks[1..])
  }
}
