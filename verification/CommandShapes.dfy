/** What the planner takes for operands, by their positions, and the effect it ascribes to each command. */
module CommandShapes {
  import opened Text
  import opened ShellWords
  import opened CommandPlan

  /** A word that starts with a hyphen and is more than that. */
  predicate LooksLikeFlag(raw: string) {
    |raw| > 1 && raw[0] == '-'
  }

  // ----- Most commands -----

  /** A word that is no flag, or any word after a "--". */
  predicate IsFree(raws: seq<string>, i: nat) {
    i < |raws| && ("--" in raws[..i] || !LooksLikeFlag(raws[i]))
  }

  lemma {:induction false} FlagsByLook(raw: string)
    ensures IsFlag(raw) <==> LooksLikeFlag(raw)
    ensures raw == "--" ==> LooksLikeFlag(raw)
  {
  }

  lemma {:induction false} FreeWordsFrom(raws: seq<string>, terminated: bool, i: nat)
    requires i < |raws|
    ensures NonFlag(raws, terminated)[i] <==> terminated || IsFree(raws, i)
  {
    FlagsByLook(raws[0]);
    if i > 0 {
      FreeWordsFrom(raws[1..], terminated || raws[0] == "--", i - 1);
      assert raws[..i] == [raws[0]] + raws[1..][..i - 1];
    }
  }

  /** The flag stands before any "--". */
  predicate FlagGiven(raws: seq<string>, want: string) {
    exists i :: 0 <= i < |raws| && raws[i] == want && "--" !in raws[..i + 1]
  }

  lemma {:induction false} FlagIsFound(raws: seq<string>, want: string)
    requires want != "--"
    ensures HasFlag(raws, want) <==> FlagGiven(raws, want)
  {
    if |raws| > 0 {
      FlagIsFound(raws[1..], want);
      if FlagGiven(raws, want) {
        var i :| 0 <= i < |raws| && raws[i] == want && "--" !in raws[..i + 1];
        assert raws[0] in raws[..i + 1];
        if i > 0 {
          assert forall w :: w in raws[1..][..i] ==> w in raws[..i + 1];
          assert raws[1..][i - 1] == want;
        }
      }
      if raws[0] != "--" && FlagGiven(raws[1..], want) {
        var i :| 0 <= i < |raws[1..]| && raws[1..][i] == want && "--" !in raws[1..][..i + 1];
        assert raws[..i + 2] == [raws[0]] + raws[1..][..i + 1];
        assert raws[i + 1] == want;
      }
      if raws[0] == want && want != "--" {
        assert raws[..1] == [raws[0]];
      }
    }
  }

  // ----- sed -----

  /** The word is the argument of a "-e" or "-f" before it. */
  predicate IsArgument(raws: seq<string>, i: nat)
    requires i <= |raws|
  {
    i > 0 && (raws[i - 1] == "-e" || raws[i - 1] == "-f") && !IsArgument(raws, i - 1) && !Ended(raws, i - 1)
  }

  /** Options ended before the word: an earlier "--" that is no argument. */
  predicate Ended(raws: seq<string>, i: nat)
    requires i <= |raws|
  {
    i > 0 && (Ended(raws, i - 1) || (raws[i - 1] == "--" && !IsArgument(raws, i - 1)))
  }

  /** The word is an option. */
  predicate IsOption(raws: seq<string>, i: nat)
    requires i < |raws|
  {
    !Ended(raws, i) && LooksLikeFlag(raws[i])
  }

  /** The option edits in place. */
  predicate InPlaceOption(raw: string) {
    (|raw| >= 2 && raw[0] == '-' && raw[1] == 'i') || raw == "--in-place" || HasPrefix(raw, "--in-place=")
  }

  /** The option gives the script, in itself or in its argument. */
  predicate ScriptOption(raw: string) {
    |raw| >= 2 && raw[0] == '-' && (raw[1] == 'e' || raw[1] == 'f')
  }

  /** The script was given before the word: by an option, or as the first free word. */
  predicate ScriptSeen(raws: seq<string>, i: nat)
    requires i <= |raws|
  {
    i > 0
    && (ScriptSeen(raws, i - 1)
        || (!IsArgument(raws, i - 1)
            && if IsOption(raws, i - 1) then ScriptOption(raws[i - 1]) else !(raws[i - 1] == "--" && !Ended(raws, i - 1))))
  }

  /** A free word after the script. */
  predicate IsSedOperand(raws: seq<string>, i: nat) {
    i < |raws| && !IsArgument(raws, i) && !IsOption(raws, i) && !(raws[i] == "--" && !Ended(raws, i)) && ScriptSeen(raws, i)
  }

  ghost predicate EditsInPlace(raws: seq<string>, from: nat) {
    exists i :: from <= i < |raws| && !IsArgument(raws, i) && IsOption(raws, i) && InPlaceOption(raws[i])
  }

  lemma {:induction false} LooksOfOptions(raw: string)
    ensures IsInPlace(raw) <==> InPlaceOption(raw)
    ensures HasPrefix(raw, "-e") || HasPrefix(raw, "-f") <==> ScriptOption(raw)
    ensures InPlaceOption(raw) || ScriptOption(raw) || raw == "--" ==> LooksLikeFlag(raw)
    ensures InPlaceOption(raw) ==> !ScriptOption(raw)
  {
    if HasPrefix(raw, "--in-place=") {
      assert raw[0] == "--in-place="[0] && raw[1] == "--in-place="[1];
    }
    if |raw| >= 2 {
      assert raw[..2] == [raw[0], raw[1]];
    }
  }

  /** What a word that is no argument is, given whether options have ended and the script was seen. */
  datatype Kind = EndMark | InPlaceMark | ScriptComes | ScriptHere | OtherOption | Script | Operand

  function KindOf(raw: string, ended: bool, seen: bool): Kind {
    if !ended && raw == "--" then EndMark
    else if !ended && InPlaceOption(raw) then InPlaceMark
    else if !ended && (raw == "-e" || raw == "-f") then ScriptComes
    else if !ended && ScriptOption(raw) then ScriptHere
    else if !ended && LooksLikeFlag(raw) then OtherOption
    else if !seen then Script
    else Operand
  }

  lemma {:induction false} ReadByKind(raws: seq<string>, ended: bool, seen: bool)
    requires |raws| > 0
    ensures SedOperands(raws, ended, seen)
         == match KindOf(raws[0], ended, seen)
            case EndMark => SedPrepend([false], false, SedOperands(raws[1..], true, seen))
            case InPlaceMark => SedPrepend([false], true, SedOperands(raws[1..], ended, seen))
            case ScriptComes => if |raws| == 1 then None else SedPrepend([false, false], false, SedOperands(raws[2..], ended, true))
            case ScriptHere => SedPrepend([false], false, SedOperands(raws[1..], ended, true))
            case OtherOption => SedPrepend([false], false, SedOperands(raws[1..], ended, seen))
            case Script => SedPrepend([false], false, SedOperands(raws[1..], ended, true))
            case Operand => SedPrepend([true], false, SedOperands(raws[1..], ended, seen))
  {
    LooksOfOptions(raws[0]);
    FlagsByLook(raws[0]);
    assert |raws| > 1 ==> raws[1..][1..] == raws[2..];
  }

  lemma {:induction false} StandsByKind(raws: seq<string>, i: nat)
    requires i < |raws| && !IsArgument(raws, i)
    ensures var kind := KindOf(raws[i], Ended(raws, i), ScriptSeen(raws, i));
            && (Ended(raws, i + 1) <==> Ended(raws, i) || kind.EndMark?)
            && (ScriptSeen(raws, i + 1) <==> ScriptSeen(raws, i) || kind.ScriptComes? || kind.ScriptHere? || kind.Script?)
            && (IsArgument(raws, i + 1) <==> kind.ScriptComes?)
            && (IsSedOperand(raws, i) <==> kind.Operand?)
            && (IsOption(raws, i) && InPlaceOption(raws[i]) <==> kind.InPlaceMark?)
  {
    LooksOfOptions(raws[i]);
    LooksOfOptions("-e");
    LooksOfOptions("-f");
    assert ScriptOption("-e") && ScriptOption("-f");
  }

  lemma {:induction false} AfterArgument(raws: seq<string>, i: nat)
    requires i < |raws| && IsArgument(raws, i)
    ensures !IsArgument(raws, i + 1) && !IsSedOperand(raws, i)
    ensures Ended(raws, i + 1) == Ended(raws, i) && ScriptSeen(raws, i + 1) == ScriptSeen(raws, i)
  {
  }

  ghost predicate SedReadsAs(raws: seq<string>, i: nat, shape: Option<SedShape>)
    requires i <= |raws|
  {
    && (shape.None? <==> IsArgument(raws, |raws|))
    && (shape.Some? ==>
          && |shape.value.marks| == |raws| - i
          && (shape.value.inPlace <==> EditsInPlace(raws, i))
          && forall j :: i <= j < |raws| ==> (shape.value.marks[j - i] <==> IsSedOperand(raws, j)))
  }

  lemma {:induction false} OneMore(raws: seq<string>, i: nat, mark: bool, inPlace: bool, rest: Option<SedShape>)
    requires i < |raws| && SedReadsAs(raws, i + 1, rest)
    requires mark <==> IsSedOperand(raws, i)
    requires inPlace <==> !IsArgument(raws, i) && IsOption(raws, i) && InPlaceOption(raws[i])
    ensures SedReadsAs(raws, i, SedPrepend([mark], inPlace, rest))
  {
    hide IsSedOperand, IsArgument, IsOption, InPlaceOption;
    if rest.Some? {
      var shape := SedPrepend([mark], inPlace, rest).value;
      forall j | i <= j < |raws| ensures shape.marks[j - i] <==> IsSedOperand(raws, j) {
        if j > i {
          assert shape.marks[j - i] == rest.value.marks[j - i - 1];
        }
      }
      if EditsInPlace(raws, i + 1) {
        var j :| i + 1 <= j < |raws| && !IsArgument(raws, j) && IsOption(raws, j) && InPlaceOption(raws[j]);
      }
    }
  }

  /** What is read from word i on, given what stands before it. */
  lemma {:induction false} SedFrom(raws: seq<string>, i: nat)
    requires i <= |raws| && !IsArgument(raws, i)
    ensures SedReadsAs(raws, i, SedOperands(raws[i..], Ended(raws, i), ScriptSeen(raws, i)))
    decreases |raws| - i
  {
    hide IsArgument, IsOption, Ended, ScriptSeen, IsSedOperand, KindOf, InPlaceOption, SedOperands;
    if i == |raws| {
      NothingToRead(raws, Ended(raws, i), ScriptSeen(raws, i));
    } else {
      var ended, seen := Ended(raws, i), ScriptSeen(raws, i);
      var kind := KindOf(raws[i], ended, seen);
      assert raws[i..][0] == raws[i] && raws[i..][1..] == raws[i + 1..];
      ReadByKind(raws[i..], ended, seen);
      StandsByKind(raws, i);
      if kind.ScriptComes? {
        if i + 1 < |raws| {
          assert raws[i..][2..] == raws[i + 2..];
          AfterArgument(raws, i + 1);
          SedFrom(raws, i + 2);
          var rest := SedOperands(raws[i + 2..], ended, true);
          OneMore(raws, i + 1, false, false, rest);
          OneMore(raws, i, false, false, SedPrepend([false], false, rest));
          TwoAtOnce(rest);
        }
      } else {
        SedFrom(raws, i + 1);
        OneMore(raws, i, kind.Operand?, kind.InPlaceMark?, SedOperands(raws[i + 1..], Ended(raws, i + 1), ScriptSeen(raws, i + 1)));
      }
    }
  }

  lemma {:induction false} TwoAtOnce(rest: Option<SedShape>)
    ensures SedPrepend([false, false], false, rest) == SedPrepend([false], false, SedPrepend([false], false, rest))
  {
    if rest.Some? {
      assert [false, false] + rest.value.marks == [false] + ([false] + rest.value.marks);
    }
  }

  lemma {:induction false} NothingToRead(raws: seq<string>, ended: bool, seen: bool)
    requires !IsArgument(raws, |raws|)
    ensures SedReadsAs(raws, |raws|, SedOperands(raws[|raws|..], ended, seen))
  {
  }

  // ----- All commands -----

  /** Which words of a command are its operands, by its name. */
  ghost predicate IsOperand(raws: seq<string>, i: nat)
    requires |raws| > 0
  {
    if raws[0] == "sed" then i > 0 && IsSedOperand(raws[1..], i - 1)
    else if raws[0] == "go" then 1 < i < |raws| && IsFree(raws[2..], i - 2)
    else i > 0 && IsFree(raws[1..], i - 1)
  }

  /** The commands that are planned at all, and the effect of each. */
  ghost function EffectOf(raws: seq<string>): Option<Effect>
    requires |raws| > 0
  {
    if raws[0] == "rm" || raws[0] == "unlink" then Some(Delete)
    else if raws[0] == "mv" then Some(Rename)
    else if raws[0] == "sed" && !IsArgument(raws[1..], |raws| - 1) && EditsInPlace(raws[1..], 0) then Some(Edit)
    else if raws[0] == "gofmt" && FlagGiven(raws[1..], "-w") then Some(Edit)
    else if raws[0] == "go" && |raws| > 1 && raws[1] == "fmt" then Some(Edit)
    else None
  }

  /** A command is planned exactly when its name has an effect and it has an operand; the plan names all operands, in order. */
  lemma {:induction false} PlansByName(raws: seq<string>)
    ensures var plan := AsPlan(PlanOf(raws));
            && (plan.Some? <==> |raws| > 0 && EffectOf(raws).Some? && exists i: nat :: i < |raws| && IsOperand(raws, i))
            && (plan.Some? ==>
                  && Some(plan.value.effect) == EffectOf(raws)
                  && (forall k, l :: 0 <= k < l < |plan.value.operands| ==> plan.value.operands[k] < plan.value.operands[l])
                  && forall i: nat :: i in plan.value.operands <==> i < |raws| && IsOperand(raws, i))
  {
    hide ShapeOf, EffectOf, IsOperand;
    var shape := ShapeOf(raws);
    if |raws| > 0 {
      ShapesByName(raws);
      if shape.Some? && true in shape.value.marks {
        var marks := shape.value.marks;
        var i :| 0 <= i < |raws| && marks[i];
        assert IsOperand(raws, i);
        PositionsAreMarks(marks, 0);
        forall i: nat | i < |raws| && IsOperand(raws, i) ensures i in Positions(marks, 0) {
          PositionOfMark(marks, 0, i);
        }
      }
    } else {
      assert shape.None? by {
        NoCommand(raws);
      }
    }
  }

  lemma {:induction false} NoCommand(raws: seq<string>)
    requires raws == []
    ensures ShapeOf(raws) == None
  {
  }

  lemma {:induction false} ShapesByName(raws: seq<string>)
    requires |raws| > 0
    ensures var shape := ShapeOf(raws);
            && (shape.Some? <==> EffectOf(raws).Some?)
            && (shape.Some? ==> Some(shape.value.effect) == EffectOf(raws)
                                && forall i :: 0 <= i < |raws| ==> (shape.value.marks[i] <==> IsOperand(raws, i)))
  {
    hide NonFlag, SedOperands, IsFree, IsSedOperand, HasFlag, FlagGiven, EditsInPlace, IsArgument;
    var shape := ShapeOf(raws);
    var rest := raws[1..];
    if raws[0] == "sed" {
      assert !IsArgument(rest, 0) && !Ended(rest, 0) && !ScriptSeen(rest, 0) by {
        NothingBefore(rest);
      }
      SedFrom(rest, 0);
      assert rest[0..] == rest;
    } else if raws[0] == "gofmt" {
      FlagIsFound(rest, "-w");
    }
    if shape.Some? {
      forall i | 0 <= i < |raws| ensures shape.value.marks[i] <==> IsOperand(raws, i) {
        if raws[0] != "sed" && raws[0] != "go" && i > 0 {
          FreeWordsFrom(rest, false, i - 1);
        }
        if raws[0] == "go" && i > 1 {
          FreeWordsFrom(raws[2..], false, i - 2);
        }
      }
    }
  }

  lemma {:induction false} NothingBefore(raws: seq<string>)
    ensures !IsArgument(raws, 0) && !Ended(raws, 0) && !ScriptSeen(raws, 0)
  {
  }
}
