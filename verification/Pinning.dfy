/** Command pinning: the captured paths in place of the operands, every word quoted, and planned the same again. */
module Pinning {
  import opened Text
  import opened ShellWords
  import opened CommandPlan
  import opened PinnedPlan

  lemma {:induction false} RawsOfQuoted(words: seq<string>)
    ensures Raws(QuotedTokens(words)) == words
  {
    if |words| > 0 {
      RawsOfQuoted(words[1..]);
      assert QuotedTokens(words)[1..] == QuotedTokens(words[1..]);
      assert words == [words[0]] + words[1..];
    }
  }

  /**
   The pinned command, read by the same tokenizer and planner, is the same command with the same effect, on exactly the
   captured paths.
   */
  lemma {:induction false} PinnedCommandPlansTheSame(command: string, groups: seq<seq<string>>)
    requires PlanGlobMutation(command).Some?
    requires |groups| == CountTrue(PlanGlobMutation(command).value.marks) && AllGroupsAbsolute(groups) && Flat(groups) != []
    ensures var raws, shape := Raws(Tokenize(command).value), PlanGlobMutation(command).value;
            var pinned, marks := Pinned(raws, shape.marks, groups), PinnedMarks(shape.marks, groups);
            && Tokenize(QuotedWords(pinned)) == Some(QuotedTokens(pinned))
            && PlanGlobMutation(QuotedWords(pinned)) == Some(Shape(shape.effect, marks))
            && |pinned| == |marks| && Operands(pinned, marks) == Flat(groups)
  {
    hide Tokenize, QuotedWords, QuotedTokens, Pinned, PinnedMarks, Flat, CountTrue, Operands, ShapeOf;
    var raws, shape := Raws(Tokenize(command).value), PlanGlobMutation(command).value;
    var pinned := Pinned(raws, shape.marks, groups);
    QuotedWordsAreRead(pinned);
    RawsOfQuoted(pinned);
    ShapeOfPinned(raws, groups);
    PinnedHasOperand(shape.marks, groups);
    PinnedOperands(raws, shape.marks, groups);
  }

  // ----- Building the pinned command -----

  function QuoteAll(words: seq<string>): seq<string> {
    if |words| == 0 then [] else [ShellQuote(words[0])] + QuoteAll(words[1..])
  }

  /** `strings.Join(words, " ")`. */
  function JoinSpace(words: seq<string>): string {
    if |words| == 0 then "" else if |words| == 1 then words[0] else words[0] + (" " + JoinSpace(words[1..]))
  }

  lemma {:induction false} QuoteAllConcat(a: seq<string>, b: seq<string>)
    ensures QuoteAll(a + b) == QuoteAll(a) + QuoteAll(b)
  {
    if |a| == 0 {
      EmptyConcat(a, b);
      EmptyConcat(QuoteAll(a), QuoteAll(b));
    } else {
      TailOfConcat(a, b);
      QuoteAllConcat(a[1..], b);
      Regroup3([ShellQuote(a[0])], QuoteAll(a[1..]), QuoteAll(b));
    }
  }

  lemma {:induction false} JoinedQuotes(words: seq<string>)
    ensures |QuoteAll(words)| == |words| && JoinSpace(QuoteAll(words)) == QuotedWords(words)
  {
    hide ShellQuote;
    if |words| > 0 {
      JoinedQuotes(words[1..]);
      assert QuoteAll(words)[1..] == QuoteAll(words[1..]);
    }
  }

  method QuotePaths(paths: seq<string>) returns (quoted: seq<string>)
    ensures quoted == QuoteAll(paths)
  {
    hide ShellQuote;
    quoted := [];
    assert paths[0..] == paths;
    for i := 0 to |paths|
      invariant quoted + QuoteAll(paths[i..]) == QuoteAll(paths)
    {
      assert paths[i..][0] == paths[i] && paths[i..][1..] == paths[i + 1..];
      Regroup3(quoted, [ShellQuote(paths[i])], QuoteAll(paths[i + 1..]));
      quoted := quoted + [ShellQuote(paths[i])];
    }
    assert quoted + [] == quoted;
  }

  lemma {:induction false} CountMore(marks: seq<bool>, i: nat)
    requires i < |marks|
    ensures CountTrue(marks[..i + 1]) == CountTrue(marks[..i]) + if marks[i] then 1 else 0
  {
    if i > 0 {
      CountMore(marks[1..], i - 1);
      assert marks[..i + 1][1..] == marks[1..][..i] && marks[..i][1..] == marks[1..][..i - 1];
    }
  }

  lemma {:induction false} CountRest(marks: seq<bool>, i: nat)
    requires i <= |marks|
    ensures CountTrue(marks) == CountTrue(marks[..i]) + CountTrue(marks[i..])
  {
    if i == 0 {
      assert marks[0..] == marks && marks[..0] == [];
    } else {
      CountRest(marks[1..], i - 1);
      assert marks[..i][1..] == marks[1..][..i - 1] && marks[1..][i - 1..] == marks[i..];
    }
  }

  method Replacements(operands: seq<nat>, groups: seq<seq<string>>) returns (replacement: map<nat, seq<string>>)
    requires |operands| == |groups| && forall k, l :: 0 <= k < l < |operands| ==> operands[k] < operands[l]
    ensures forall i :: i in replacement <==> i in operands
    ensures forall k :: 0 <= k < |operands| ==> replacement[operands[k]] == QuoteAll(groups[k])
  {
    replacement := map[];
    for position := 0 to |operands|
      invariant forall i :: i in replacement <==> i in operands[..position]
      invariant forall k :: 0 <= k < position ==> operands[k] in replacement && replacement[operands[k]] == QuoteAll(groups[k])
    {
      TakeMore(operands, position);
      var paths := QuotePaths(groups[position]);
      replacement := replacement[operands[position] := paths];
    }
    assert operands[..|operands|] == operands;
  }

  lemma {:induction false} PinnedFrom(raws: seq<string>, marks: seq<bool>, groups: seq<seq<string>>, i: nat, k: nat)
    requires |marks| == |raws| && |groups| == CountTrue(marks) && i < |raws| && k == CountTrue(marks[..i])
    ensures CountTrue(marks[i..]) == |groups| - k && k <= |groups| && (marks[i] ==> k < |groups|)
    ensures var k' := k + if marks[i] then 1 else 0;
            && CountTrue(marks[i + 1..]) == |groups| - k'
            && Pinned(raws[i..], marks[i..], groups[k..])
            == (if marks[i] then groups[k] else [raws[i]]) + Pinned(raws[i + 1..], marks[i + 1..], groups[k'..])
  {
    CountRest(marks, i);
    CountRest(marks, i + 1);
    CountMore(marks, i);
    assert raws[i..][0] == raws[i] && raws[i..][1..] == raws[i + 1..];
    assert marks[i..][0] == marks[i] && marks[i..][1..] == marks[i + 1..];
    assert marks[i] ==> groups[k..][0] == groups[k] && groups[k..][1..] == groups[k + 1..];
  }

  /** pinCommand; nothing on Windows, where a quoted command name would not run. */
  method PinCommand(raws: seq<string>, ghost marks: seq<bool>, operands: seq<nat>, groups: seq<seq<string>>, windows: bool)
    returns (pinned: string)
    requires |marks| == |raws| && operands == Positions(marks, 0) && |groups| == CountTrue(marks)
    ensures pinned == if windows then "" else QuotedWords(Pinned(raws, marks, groups))
  {
    hide ShellQuote, Pinned, Positions, QuoteAll;
    if windows {
      return "";
    }
    PositionsAreMarks(marks, 0);
    var replacement := Replacements(operands, groups);
    var words: seq<string> := [];
    ghost var k := 0;
    assert raws[0..] == raws && marks[0..] == marks && groups[0..] == groups && marks[..0] == [];
    EmptyConcat(words, QuoteAll(Pinned(raws, marks, groups)));
    for index := 0 to |raws|
      invariant k == CountTrue(marks[..index]) <= |groups| && CountTrue(marks[index..]) == |groups| - k
      invariant words + QuoteAll(Pinned(raws[index..], marks[index..], groups[k..])) == QuoteAll(Pinned(raws, marks, groups))
    {
      PinnedFrom(raws, marks, groups, index, k);
      CountMore(marks, index);
      if marks[index] {
        PositionOfMark(marks, 0, index);
      }
      assert index in replacement <==> marks[index];
      ghost var k' := k + if marks[index] then 1 else 0;
      ghost var rest := Pinned(raws[index + 1..], marks[index + 1..], groups[k'..]);
      QuoteAllConcat(if marks[index] then groups[k] else [raws[index]], rest);
      OneQuoted(raws[index]);
      Regroup3(words, QuoteAll(if marks[index] then groups[k] else [raws[index]]), QuoteAll(rest));
      if index in replacement {
        words := words + replacement[index];
      } else {
        words := words + [ShellQuote(raws[index])];
      }
      k := k';
    }
    NothingPinned(raws[|raws|..], marks[|raws|..], groups[k..]);
    assert words + [] == words;
    JoinedQuotes(Pinned(raws, marks, groups));
    return JoinSpace(words);
  }

  lemma {:induction false} OneQuoted(word: string)
    ensures QuoteAll([word]) == [ShellQuote(word)]
  {
    assert [word][1..] == [];
  }

  lemma {:induction false} NothingPinned(raws: seq<string>, marks: seq<bool>, groups: seq<seq<string>>)
    requires |raws| == |marks| == 0 && |groups| == CountTrue(marks)
    ensures QuoteAll(Pinned(raws, marks, groups)) == []
  {
  }
}
