/** Terminal semantics of raw output bytes, in one pass: ECMA-48 sequences go, CRLF folds, a bare CR restarts the line. */
module TerminalText {
  import opened Text

  const ESC: char := '\U{1B}'
  const BEL: char := '\U{07}'

  predicate IsParameter(c: char) { '\U{30}' <= c <= '\U{3F}' }

  predicate IsIntermediate(c: char) { '\U{20}' <= c <= '\U{2F}' }

  predicate IsFinal(c: char) { '\U{40}' <= c <= '\U{7E}' }

  // ----- Control sequences -----

  /** After ESC [: how many characters the rest of the sequence takes, if it is whole. */
  function CsiRest(s: string, intermediates: bool): (n: Option<nat>)
    ensures n.Some? ==> 0 < n.value <= |s| && '\n' !in s[..n.value]
  {
    if |s| == 0 then None
    else if (IsParameter(s[0]) && !intermediates) || IsIntermediate(s[0]) then
      var n := CsiRest(s[1..], IsIntermediate(s[0]));
      if n.None? then None
      else
        assert s[..n.value + 1] == [s[0]] + s[1..][..n.value];
        Some(n.value + 1)
    else if IsFinal(s[0]) then Some(1)
    else None
  }

  /** After ESC ]: how many characters up to and including the terminator, BEL or ESC \, on the same line. */
  function OscRest(s: string): (n: Option<nat>)
    ensures n.Some? ==> 0 < n.value <= |s| && '\n' !in s[..n.value]
  {
    if |s| == 0 || s[0] == '\n' then None
    else if s[0] == BEL then Some(1)
    else if s[0] == ESC && |s| > 1 && s[1] == '\\' then Some(2)
    else
      var n := OscRest(s[1..]);
      if n.None? then None
      else
        assert s[..n.value + 1] == [s[0]] + s[1..][..n.value];
        Some(n.value + 1)
  }

  /** The length of the whole control sequence or operating system command that s begins with, or zero. */
  function SequenceLength(s: string): (n: nat)
    ensures n <= |s| && (n > 0 ==> n > 2 && '\n' !in s[..n])
  {
    if |s| > 1 && s[0] == ESC && (s[1] == '[' || s[1] == ']') then
      var rest := if s[1] == '[' then CsiRest(s[2..], false) else OscRest(s[2..]);
      if rest.None? then 0
      else
        assert s[..rest.value + 2] == [s[0], s[1]] + s[2..][..rest.value];
        rest.value + 2
    else 0
  }

  // ----- The pass -----

  /** What the terminal shows from here on; line is what it shows on the current line so far. */
  function Shown(s: string, line: string): string
    decreases |s|
  {
    if |s| == 0 then line
    else if SequenceLength(s) > 0 then Shown(s[SequenceLength(s)..], line)
    else if s[0] == '\r' && |s| > 1 && s[1] == '\n' then line + "\n" + Shown(s[2..], "")
    else if s[0] == '\r' then Shown(s[1..], "")
    else if s[0] == '\n' then line + "\n" + Shown(s[1..], "")
    else Shown(s[1..], line + [s[0]])
  }

  function Normalized(text: string): string {
    Shown(text, "")
  }

  lemma {:induction false} CsiAt(text: string, j: nat, intermediates: bool)
    requires j <= |text|
    ensures j == |text| ==> CsiRest(text[j..], intermediates) == None
    ensures j < |text| && ((IsParameter(text[j]) && !intermediates) || IsIntermediate(text[j])) ==>
              CsiRest(text[j..], intermediates) == Shifted(1, CsiRest(text[j + 1..], IsIntermediate(text[j])))
    ensures j < |text| && !IsIntermediate(text[j]) && (!IsParameter(text[j]) || intermediates) ==>
              CsiRest(text[j..], intermediates) == if IsFinal(text[j]) then Some(1) else None
  {
    assert j < |text| ==> text[j..][0] == text[j] && text[j..][1..] == text[j + 1..];
  }

  /** Parameter bytes, then intermediate bytes. */
  method SkipCsi(text: string, start: nat) returns (j: nat)
    requires start <= |text|
    ensures start <= j <= |text|
    ensures CsiRest(text[start..], false) == if j < |text| && IsFinal(text[j]) then Some(j + 1 - start) else None
  {
    hide CsiRest;
    j := start;
    while j < |text| && IsParameter(text[j])
      invariant start <= j <= |text|
      invariant CsiRest(text[start..], false) == Shifted(j - start, CsiRest(text[j..], false))
    {
      CsiAt(text, j, false);
      j := j + 1;
    }
    CsiAt(text, j, false);
    CsiAt(text, j, true);
    while j < |text| && IsIntermediate(text[j])
      invariant start <= j <= |text|
      invariant CsiRest(text[start..], false) == Shifted(j - start, CsiRest(text[j..], true))
    {
      CsiAt(text, j, true);
      j := j + 1;
    }
    CsiAt(text, j, true);
  }

  function Shifted(k: nat, n: Option<nat>): Option<nat> {
    if n.None? then None else Some(k + n.value)
  }

  method SkipOsc(text: string, start: nat) returns (end: Option<nat>)
    requires start <= |text|
    ensures end == Shifted(start, OscRest(text[start..]))
  {
    var j := start;
    while j < |text|
      invariant start <= j <= |text|
      invariant OscRest(text[start..]) == Shifted(j - start, OscRest(text[j..]))
    {
      assert text[j..][0] == text[j] && text[j..][1..] == text[j + 1..];
      if text[j] == BEL {
        return Some(j + 1);
      }
      if text[j] == '\n' {
        return None;
      }
      if text[j] == ESC && j + 1 < |text| && text[j + 1] == '\\' {
        assert text[j..][1] == text[j + 1];
        return Some(j + 2);
      }
      assert j + 1 < |text| ==> text[j..][1] == text[j + 1];
      j := j + 1;
    }
    return None;
  }

  /** What has been shown before the current line, and what follows. */
  ghost predicate Agrees(text: string, out: string, lineStart: nat, i: nat) {
    lineStart <= |out| && i <= |text| && Normalized(text) == out[..lineStart] + Shown(text[i..], out[lineStart..])
  }

  lemma {:induction false} EndLine(text: string, out: string, lineStart: nat, i: nat, next: nat)
    requires Agrees(text, out, lineStart, i) && i <= next <= |text|
    requires Shown(text[i..], out[lineStart..]) == out[lineStart..] + "\n" + Shown(text[next..], "")
    ensures Agrees(text, out + "\n", |out| + 1, next)
  {
    var out' := out + "\n";
    assert out'[..|out| + 1] == out' && out'[|out| + 1..] == "";
    assert out[..lineStart] + out[lineStart..] == out;
    Regroup3(out[..lineStart], out[lineStart..] + "\n", Shown(text[next..], ""));
    Regroup3(out[..lineStart], out[lineStart..], "\n");
  }

  lemma {:induction false} AppendChar(text: string, out: string, lineStart: nat, i: nat)
    requires Agrees(text, out, lineStart, i) && i < |text|
    requires Shown(text[i..], out[lineStart..]) == Shown(text[i + 1..], out[lineStart..] + [text[i]])
    ensures Agrees(text, out + [text[i]], lineStart, i + 1)
  {
    var out' := out + [text[i]];
    assert out'[..lineStart] == out[..lineStart] && out'[lineStart..] == out[lineStart..] + [text[i]];
  }

  lemma {:induction false} MoveOn(text: string, out: string, lineStart: nat, i: nat, next: nat)
    requires Agrees(text, out, lineStart, i) && i <= next <= |text|
    requires Shown(text[i..], out[lineStart..]) == Shown(text[next..], out[lineStart..])
    ensures Agrees(text, out, lineStart, next)
  {
  }

  lemma {:induction false} StartOver(text: string, out: string, lineStart: nat, i: nat)
    requires Agrees(text, out, lineStart, i) && i < |text|
    requires Shown(text[i..], out[lineStart..]) == Shown(text[i + 1..], "")
    ensures Agrees(text, out[..lineStart], lineStart, i + 1)
  {
    var out' := out[..lineStart];
    assert out'[..lineStart] == out' && out'[lineStart..] == "";
  }

  /** How the sequence at position i ends, told from the scans. */
  lemma {:induction false} SequenceAt(text: string, i: nat)
    requires i < |text|
    ensures var n := SequenceLength(text[i..]);
            if text[i] == ESC && i + 1 < |text| && text[i + 1] == '[' then
              n == (var rest := CsiRest(text[i + 2..], false); if rest.None? then 0 else rest.value + 2)
            else if text[i] == ESC && i + 1 < |text| && text[i + 1] == ']' then
              n == (var rest := OscRest(text[i + 2..]); if rest.None? then 0 else rest.value + 2)
            else n == 0
  {
    var s := text[i..];
    assert s[0] == text[i] && (|s| > 1 ==> s[1] == text[i + 1] && s[2..] == text[i + 2..]);
  }

  /** One step of the pass, by position. */
  lemma {:induction false} ShownAt(text: string, i: nat, line: string)
    requires i < |text|
    ensures var n := SequenceLength(text[i..]);
            && i + n <= |text|
            && Shown(text[i..], line)
            == if n > 0 then Shown(text[i + n..], line)
               else if text[i] == '\r' && i + 1 < |text| && text[i + 1] == '\n' then line + "\n" + Shown(text[i + 2..], "")
               else if text[i] == '\r' then Shown(text[i + 1..], "")
               else if text[i] == '\n' then line + "\n" + Shown(text[i + 1..], "")
               else Shown(text[i + 1..], line + [text[i]])
  {
    hide SequenceLength, Shown;
    var s := text[i..];
    var n := SequenceLength(s);
    ShownUnfold(s, line);
    assert s[0] == text[i] && (|s| > 1 ==> s[1] == text[i + 1] && s[2..] == text[i + 2..]);
    assert s[1..] == text[i + 1..] && s[n..] == text[i + n..];
  }

  method TerminalNormalize(text: string) returns (out: string)
    ensures out == Normalized(text)
  {
    hide Agrees, Shown, SequenceLength, CsiRest, OscRest;
    out := "";
    var lineStart: nat, i: nat := 0, 0;
    Start(text);
    while i < |text|
      invariant Agrees(text, out, lineStart, i) && lineStart <= |out| && i <= |text|
      decreases |text| - i
    {
      var c := text[i];
      SequenceAt(text, i);
      ShownAt(text, i, out[lineStart..]);
      if c == ESC && i + 1 < |text| && text[i + 1] == '[' {
        var j := SkipCsi(text, i + 2);
        if j < |text| && IsFinal(text[j]) {
          MoveOn(text, out, lineStart, i, j + 1);
          i := j + 1;
          continue;
        }
        AppendChar(text, out, lineStart, i);
        out := out + [c];
        i := i + 1;
      } else if c == ESC && i + 1 < |text| && text[i + 1] == ']' {
        var end := SkipOsc(text, i + 2);
        if end.Some? {
          MoveOn(text, out, lineStart, i, end.value);
          i := end.value;
          continue;
        }
        AppendChar(text, out, lineStart, i);
        out := out + [c];
        i := i + 1;
      } else if c == '\r' {
        if i + 1 < |text| && text[i + 1] == '\n' {
          EndLine(text, out, lineStart, i, i + 2);
          out := out + "\n";
          lineStart := |out|;
          i := i + 2;
          continue;
        }
        StartOver(text, out, lineStart, i);
        out := out[..lineStart];
        i := i + 1;
      } else if c == '\n' {
        EndLine(text, out, lineStart, i, i + 1);
        out := out + [c];
        lineStart := |out|;
        i := i + 1;
      } else {
        AppendChar(text, out, lineStart, i);
        out := out + [c];
        i := i + 1;
      }
    }
    Finish(text, out, lineStart);
  }

  lemma {:induction false} Start(text: string)
    ensures Agrees(text, "", 0, 0)
  {
    assert text[0..] == text;
    EmptyConcat("", Shown(text, ""));
  }

  lemma {:induction false} Finish(text: string, out: string, lineStart: nat)
    requires Agrees(text, out, lineStart, |text|)
    ensures out == Normalized(text)
  {
    assert text[|text|..] == "" && out == out[..lineStart] + out[lineStart..];
  }

  // ----- Line by line -----

  /** A sequence is found, or not, whatever follows the line feed that ends its line. */
  lemma {:induction false} CsiStaysOnLine(x: string, y: string, intermediates: bool)
    ensures CsiRest(x + ("\n" + y), intermediates) == CsiRest(x, intermediates)
  {
    var s := x + ("\n" + y);
    if |x| == 0 {
      assert s[0] == '\n';
    } else {
      TailOfConcat(x, "\n" + y);
      CsiStaysOnLine(x[1..], y, IsIntermediate(x[0]));
    }
  }

  lemma {:induction false} OscStaysOnLine(x: string, y: string)
    ensures OscRest(x + ("\n" + y)) == OscRest(x)
  {
    var s := x + ("\n" + y);
    if |x| == 0 {
      assert s[0] == '\n';
    } else {
      TailOfConcat(x, "\n" + y);
      assert |s| > 1 && s[1] == if |x| > 1 then x[1] else '\n';
      OscStaysOnLine(x[1..], y);
    }
  }

  lemma {:induction false} SequenceStaysOnLine(x: string, y: string)
    ensures |x| > 0 ==> SequenceLength(x + ("\n" + y)) == SequenceLength(x)
  {
    var s := x + ("\n" + y);
    if |x| > 1 {
      assert s[0] == x[0] && s[1] == x[1] && s[2..] == x[2..] + ("\n" + y);
      CsiStaysOnLine(x[2..], y, false);
      OscStaysOnLine(x[2..], y);
    } else if |x| == 1 {
      assert s[0] == x[0] && s[1] == '\n';
    }
  }

  lemma {:induction false} ShownUnfold(s: string, line: string)
    requires |s| > 0
    ensures var n := SequenceLength(s);
            && n <= |s| && (n > 0 ==> '\n' !in s[..n])
            && Shown(s, line)
            == if n > 0 then Shown(s[n..], line)
               else if s[0] == '\r' && |s| > 1 && s[1] == '\n' then line + "\n" + Shown(s[2..], "")
               else if s[0] == '\r' then Shown(s[1..], "")
               else if s[0] == '\n' then line + "\n" + Shown(s[1..], "")
               else Shown(s[1..], line + [s[0]])
  {
  }

  /** No step of the pass reaches over a line feed, and each line feed starts afresh. */
  lemma {:induction false} ShownSplits(x: string, y: string, line: string)
    ensures Shown(x + ("\n" + y), line) == Shown(x + "\n", line) + Normalized(y)
    decreases |x|
  {
    hide Shown, SequenceLength;
    var s, t := x + ("\n" + y), x + "\n";
    ShownUnfold(s, line);
    ShownUnfold(t, line);
    if |x| == 0 {
      assert s == "\n" + y && t == "\n" && s[1..] == y && t[1..] == "";
      OnlyLf(line, y);
    } else {
      SequenceStaysOnLine(x, y);
      SequenceStaysOnLine(x, "");
      assert "\n" + "" == "\n";
      var n := SequenceLength(x);
      SplitsAt(x, y, n);
      SplitsAt(x, y, 1);
      assert s[0] == x[0] && t[0] == x[0];
      assert |x| > 1 ==> s[1] == x[1] && t[1] == x[1];
      assert |x| == 1 ==> s[1] == '\n' && t[1] == '\n';
      if n > 0 {
        ShownSplits(x[n..], y, line);
      } else if x[0] == '\r' && |x| == 1 {
        assert s[2..] == y && t[2..] == "";
        OnlyLf(line, y);
      } else if x[0] == '\r' && x[1] == '\n' {
        SplitsAt(x, y, 2);
        ShownSplits(x[2..], y, "");
        Regroup3(line + "\n", Shown(t[2..], ""), Normalized(y));
      } else if x[0] == '\r' {
        ShownSplits(x[1..], y, "");
      } else if x[0] == '\n' {
        ShownSplits(x[1..], y, "");
        Regroup3(line + "\n", Shown(t[1..], ""), Normalized(y));
      } else {
        ShownSplits(x[1..], y, line + [x[0]]);
      }
    }
  }

  lemma {:induction false} SplitsAt(x: string, y: string, n: nat)
    requires n <= |x|
    ensures (x + ("\n" + y))[n..] == x[n..] + ("\n" + y) && (x + "\n")[n..] == x[n..] + "\n"
  {
  }

  lemma {:induction false} OnlyLf(line: string, y: string)
    ensures Shown("", "") == "" && line + "\n" + Normalized(y) == (line + "\n" + "") + Normalized(y)
  {
    assert line + "\n" + "" == line + "\n";
  }

  /** Line addressing: what comes after a line feed is shown as if it came alone. */
  lemma {:induction false} NormalizedSplits(x: string, y: string)
    ensures Normalized(x + "\n" + y) == Normalized(x + "\n") + Normalized(y)
  {
    Regroup3(x, "\n", y);
    ShownSplits(x, y, "");
  }

  // ----- What the pass keeps -----

  function CountLf(s: string): nat {
    if |s| == 0 then 0 else (if s[0] == '\n' then 1 else 0) + CountLf(s[1..])
  }

  lemma {:induction false} CountConcat(a: string, b: string)
    ensures CountLf(a + b) == CountLf(a) + CountLf(b)
  {
    if |a| == 0 {
      EmptyConcat(a, b);
    } else {
      TailOfConcat(a, b);
      CountConcat(a[1..], b);
    }
  }

  lemma {:induction false} CountLfFree(s: string)
    ensures CountLf(s) == 0 <==> LfFree(s)
  {
    if |s| > 0 {
      CountLfFree(s[1..]);
      assert s == [s[0]] + s[1..];
    }
  }

  predicate CrFree(s: string) {
    '\r' !in s
  }

  lemma {:induction false} SkipKeepsCount(s: string, n: nat)
    requires n <= |s| && LfFree(s[..n])
    ensures CountLf(s) == CountLf(s[n..])
  {
    assert s == s[..n] + s[n..];
    CountConcat(s[..n], s[n..]);
    CountLfFree(s[..n]);
  }

  lemma {:induction false} ShownKeeps(s: string, line: string)
    requires CrFree(line) && LfFree(line)
    ensures CrFree(Shown(s, line)) && CountLf(Shown(s, line)) == CountLf(s) && |Shown(s, line)| <= |line| + |s|
    decreases |s|
  {
    hide Shown, SequenceLength;
    if |s| == 0 {
      NothingLeft(line);
      CountLfFree(line);
    } else {
      ShownUnfold(s, line);
      var n := SequenceLength(s);
      if n > 0 {
        SkipKeepsCount(s, n);
        ShownKeeps(s[n..], line);
      } else if s[0] == '\r' && |s| > 1 && s[1] == '\n' {
        ShownKeeps(s[2..], "");
        EndedLine(line, Shown(s[2..], ""));
        assert s[1..][0] == '\n' && s[1..][1..] == s[2..];
      } else if s[0] == '\r' {
        ShownKeeps(s[1..], "");
      } else if s[0] == '\n' {
        ShownKeeps(s[1..], "");
        EndedLine(line, Shown(s[1..], ""));
      } else {
        ShownKeeps(s[1..], line + [s[0]]);
      }
    }
  }

  lemma {:induction false} NothingLeft(line: string)
    ensures Shown("", line) == line
  {
  }

  lemma {:induction false} EndedLine(line: string, rest: string)
    requires CrFree(line) && LfFree(line) && CrFree(rest)
    ensures CrFree(line + "\n" + rest) && CountLf(line + "\n" + rest) == 1 + CountLf(rest)
  {
    CountLfFree(line);
    CountConcat(line, "\n");
    CountConcat(line + "\n", rest);
    assert CountLf("\n") == 1;
  }

  /** Every line feed is kept, no carriage return is, and nothing grows. */
  lemma {:induction false} NormalizedKeepsLines(text: string)
    ensures CountLf(Normalized(text)) == CountLf(text) && CrFree(Normalized(text)) && |Normalized(text)| <= |text|
  {
    ShownKeeps(text, "");
  }

  // ----- Addressing -----

  /** What is shown of a line of raw output that a line feed ends. */
  function LineShown(line: string): string {
    var shown := Normalized(line + "\n");
    if |shown| > 0 then shown[..|shown| - 1] else shown
  }

  lemma {:induction false} ShownEndsLine(x: string, line: string)
    requires LfFree(x)
    ensures |Shown(x + "\n", line)| > 0 && Shown(x + "\n", line)[|Shown(x + "\n", line)| - 1] == '\n'
    decreases |x|
  {
    hide Shown, SequenceLength;
    var s := x + "\n";
    ShownUnfold(s, line);
    if |x| == 0 {
      assert s == "\n" && s[1..] == "";
      NothingLeft("");
    } else {
      assert s[0] == x[0] && x[0] in x;
      var n := SequenceLength(s);
      NoLfBefore(s, n);
      assert s[|x|] == '\n';
      SplitsAt(x, "", n);
      SplitsAt(x, "", 1);
      if n > 0 {
        LfFreeTail(x, n);
        ShownEndsLine(x[n..], line);
      } else if x[0] == '\r' && |x| == 1 {
        assert s[1] == '\n' && s[2..] == "";
        NothingLeft("");
      } else {
        LfFreeTail(x, 1);
        assert |x| > 1 ==> s[1] == x[1] && x[1] in x;
        ShownEndsLine(x[1..], "");
        ShownEndsLine(x[1..], line + [x[0]]);
      }
    }
  }

  lemma {:induction false} NoLfBefore(s: string, n: nat)
    requires n <= |s| && '\n' !in s[..n]
    ensures forall i :: 0 <= i < n ==> s[i] != '\n'
  {
    assert forall i :: 0 <= i < n ==> s[..n][i] == s[i];
  }

  lemma {:induction false} LfFreeTail(x: string, n: nat)
    requires LfFree(x) && n <= |x|
    ensures LfFree(x[n..])
  {
    assert forall c :: c in x[n..] ==> c in x;
  }

  lemma {:induction false} LineShownIsLine(line: string)
    requires LfFree(line)
    ensures Normalized(line + "\n") == LineShown(line) + "\n" && LfFree(LineShown(line))
  {
    ShownEndsLine(line, "");
    NormalizedKeepsLines(line + "\n");
    CountConcat(line, "\n");
    CountLfFree(line);
    assert CountLf("\n") == 1;
    var shown := Normalized(line + "\n");
    assert shown == LineShown(line) + "\n";
    CountConcat(LineShown(line), "\n");
    CountLfFree(LineShown(line));
  }

  /** What is shown of line i; only the last one has no line feed after it. */
  function LineView(raw: seq<string>, i: nat): string
    requires i < |raw|
  {
    if i + 1 < |raw| then LineShown(raw[i]) else Normalized(raw[i])
  }

  /** Line i of what is shown is what is shown of line i. */
  lemma {:induction false} LinesAreAddressed(text: string)
    ensures |Split(Normalized(text))| == |Split(text)|
    ensures forall i :: 0 <= i < |Split(text)| ==> Split(Normalized(text))[i] == LineView(Split(text), i)
    decreases |Split(text)|
  {
    var lines := Split(text);
    JoinSplit(text);
    if |lines| == 1 {
      NormalizedKeepsLines(text);
      CountLfFree(text);
      CountLfFree(Normalized(text));
      SplitLfFree(Normalized(text));
    } else {
      var first, rest := lines[0], Join(lines[1..]);
      assert text == first + "\n" + rest;
      assert AllLfFree(lines[1..]);
      SplitJoin(lines[1..]);
      LinesAreAddressed(rest);
      NormalizedSplits(first, rest);
      LineShownIsLine(first);
      SplitPrepend(LineShown(first), Normalized(rest));
      assert forall i :: 1 <= i < |lines| ==> lines[i] == lines[1..][i - 1] && LineView(lines, i) == LineView(lines[1..], i - 1);
    }
  }

  /** splitRawLines: a single trailing line feed ends the last line rather than starting an empty one. */
  function RawLines(raw: string): (lines: seq<string>)
    ensures |lines| <= |Split(raw)| && lines == Split(raw)[..|lines|]
  {
    var lines := Split(raw);
    if raw == "" then []
    else if lines[|lines| - 1] == "" then lines[..|lines| - 1]
    else lines
  }

  /** The lines of a text make it up, with a line feed behind the last one if it has one. */
  lemma {:induction false} RawLinesMakeTheText(raw: string)
    ensures RawLines(raw) == [] <==> raw == ""
    ensures raw != "" ==> raw == Join(RawLines(raw)) + if raw[|raw| - 1] == '\n' then "\n" else ""
  {
    var lines := Split(raw);
    JoinSplit(raw);
    if raw != "" {
      LastLine(lines);
      assert lines[|lines| - 1] != "" ==> raw[|raw| - 1] in lines[|lines| - 1];
    }
  }

  lemma {:induction false} LastLine(lines: seq<string>)
    requires |lines| > 0
    ensures var last := lines[|lines| - 1];
            && (|lines| > 1 ==> Join(lines) == Join(lines[..|lines| - 1]) + ("\n" + last))
            && (|lines| == 1 ==> Join(lines) == last)
  {
    if |lines| > 1 {
      LastLine(lines[1..]);
      if |lines| > 2 {
        assert lines[1..][..|lines| - 2] == lines[..|lines| - 1][1..];
        Regroup3(lines[0] + "\n", Join(lines[1..|lines| - 1]), "\n" + lines[|lines| - 1]);
      }
    }
  }

  /** The lines that are grouped are, position for position, what is shown of the raw lines. */
  lemma {:induction false} RawLinesAreAddressed(text: string, i: nat)
    requires i < |RawLines(Normalized(text))|
    ensures i < |Split(text)| && RawLines(Normalized(text))[i] == LineView(Split(text), i)
  {
    LinesAreAddressed(text);
  }

  // ----- What is deleted, and what is not -----

  /** The first n characters: parameter bytes up to p, then intermediate bytes, and one final byte. */
  predicate IsCsi(s: string, p: nat, n: nat) {
    && p < n <= |s|
    && (forall i :: 0 <= i < p ==> '\U{30}' <= s[i] <= '\U{3F}')
    && (forall i :: p <= i < n - 1 ==> '\U{20}' <= s[i] <= '\U{2F}')
    && '\U{40}' <= s[n - 1] <= '\U{7E}'
  }

  lemma {:induction false} CsiIsWhole(s: string, p: nat, n: nat)
    requires IsCsi(s, p, n)
    ensures CsiRest(s, false) == Some(n)
    ensures p == 0 ==> CsiRest(s, true) == Some(n)
    decreases n
  {
    if n > 1 {
      assert IsParameter(s[0]) || IsIntermediate(s[0]);
      var p' := if p > 0 then p - 1 else 0;
      assert forall i :: 0 <= i < |s| - 1 ==> s[1..][i] == s[i + 1];
      CsiIsWhole(s[1..], p', n - 1);
    }
  }

  lemma {:induction false} WholeIsCsi(s: string, intermediates: bool) returns (p: nat)
    requires CsiRest(s, intermediates).Some?
    ensures IsCsi(s, p, CsiRest(s, intermediates).value) && (intermediates ==> p == 0)
    decreases |s|
  {
    if (IsParameter(s[0]) && !intermediates) || IsIntermediate(s[0]) {
      p := WholeIsCsi(s[1..], IsIntermediate(s[0]));
      assert forall i :: 0 <= i < |s| - 1 ==> s[1..][i] == s[i + 1];
      p := if IsIntermediate(s[0]) then 0 else p + 1;
    } else {
      p := 0;
    }
  }

  /** After ESC [ exactly a whole control sequence is deleted, as section 5.4 of ECMA-48 puts it together. */
  lemma {:induction false} CsiIsTheGrammar(s: string, n: nat)
    ensures CsiRest(s, false) == Some(n) <==> exists p :: IsCsi(s, p, n)
  {
    if CsiRest(s, false) == Some(n) {
      var p := WholeIsCsi(s, false);
    }
    if exists p :: IsCsi(s, p, n) {
      var p :| IsCsi(s, p, n);
      CsiIsWhole(s, p, n);
    }
  }

  /** A terminator of an operating system command ends before position n. */
  predicate OscEnds(s: string, n: nat) {
    0 < n <= |s| && (s[n - 1] == '\U{07}' || (n > 1 && s[n - 2] == '\U{1B}' && s[n - 1] == '\\'))
  }

  /** The first terminator ends before position n, on the same line. */
  ghost predicate IsOsc(s: string, n: nat) {
    OscEnds(s, n) && LfFree(s[..n]) && forall m: nat :: m < n ==> !OscEnds(s, m)
  }

  lemma {:induction false} OscTail(s: string, n: nat)
    requires 0 < n <= |s| && s[0] != '\n' && s[0] != BEL && !(s[0] == ESC && |s| > 1 && s[1] == '\\')
    ensures IsOsc(s, n) <==> IsOsc(s[1..], n - 1)
  {
    var t := s[1..];
    assert s[..n] == [s[0]] + t[..n - 1];
    forall m: nat | m <= |t| ensures OscEnds(s, m + 1) <==> OscEnds(t, m) {
    }
    if IsOsc(s, n) {
      assert LfFree(t[..n - 1]) by {
        assert forall c :: c in t[..n - 1] ==> c in s[..n];
      }
      forall m: nat | m < n - 1 ensures !OscEnds(t, m) {
        assert !OscEnds(s, m + 1);
      }
    }
    if IsOsc(t, n - 1) {
      forall m: nat | m < n ensures !OscEnds(s, m) {
        if m > 0 {
          assert !OscEnds(t, m - 1);
        }
      }
    }
  }

  /** After ESC ] everything up to the first terminator is deleted, and nothing if the line ends first. */
  lemma {:induction false} OscIsTheFirstTerminator(s: string, n: nat)
    ensures OscRest(s) == Some(n) <==> IsOsc(s, n)
    decreases |s|
  {
    if |s| == 0 || s[0] == '\n' || s[0] == BEL || (s[0] == ESC && |s| > 1 && s[1] == '\\') {
      OscAtOnce(s, n);
    } else if 0 < n <= |s| {
      OscTail(s, n);
      OscIsTheFirstTerminator(s[1..], n - 1);
    }
  }

  lemma {:induction false} OscAtOnce(s: string, n: nat)
    requires |s| == 0 || s[0] == '\n' || s[0] == BEL || (s[0] == ESC && |s| > 1 && s[1] == '\\')
    ensures OscRest(s) == Some(n) <==> IsOsc(s, n)
  {
    if |s| > 0 {
      if s[0] == '\n' {
        assert 0 < n <= |s| ==> s[..n][0] == '\n';
      } else if s[0] == BEL {
        assert OscEnds(s, 1) && s[..1] == [BEL];
      } else {
        assert OscEnds(s, 2) && s[..2] == [ESC, '\\'];
      }
    }
  }

  ghost predicate IsSomeCsi(s: string, n: nat) {
    exists p :: IsCsi(s, p, n)
  }

  /** The first n characters: a whole control sequence, or a whole operating system command. */
  ghost predicate IsSequence(s: string, n: nat) {
    && 2 < n <= |s| && s[0] == '\U{1B}'
    && ((s[1] == '[' && IsSomeCsi(s[2..], n - 2)) || (s[1] == ']' && IsOsc(s[2..], n - 2)))
  }

  lemma {:induction false} SequencesAreFound(s: string, n: nat)
    ensures n > 0 && SequenceLength(s) == n <==> IsSequence(s, n)
  {
    hide IsCsi, IsOsc;
    if |s| > 1 && s[0] == ESC && n > 2 {
      CsiIsTheGrammar(s[2..], n - 2);
      OscIsTheFirstTerminator(s[2..], n - 2);
    }
  }

  /** Wherever a sequence begins, other than after a carriage return or inside another, it is as if it were not there. */
  lemma {:induction false} SequencesVanish(x: string, s: string, n: nat, line: string)
    requires EscFree(x) && (x == "" || x[|x| - 1] != '\r') && IsSequence(s, n)
    ensures Shown(x + s, line) == Shown(x + s[n..], line)
    decreases |x|
  {
    hide SequenceLength;
    assert n <= |s|;
    hide IsSequence;
    if x == "" {
      SequencesAreFound(s, n);
      assert x + s == s && x + s[n..] == s[n..];
    } else {
      StepOver(x, s, line);
      StepOver(x, s[n..], line);
      var k := if |x| > 1 && x[0] == '\r' && x[1] == '\n' then 2 else 1;
      var y := x[k..];
      assert EscFree(y) by {
        assert forall c :: c in y ==> c in x;
      }
      assert y != "" ==> y[|y| - 1] == x[|x| - 1];
      SequencesVanish(y, s, n, "");
      SequencesVanish(y, s, n, line + [x[0]]);
    }
  }

  /** What the first characters of plain text do. */
  lemma {:induction false} StepOver(x: string, s: string, line: string)
    requires x != "" && EscFree(x) && x[|x| - 1] != '\r'
    ensures Shown(x + s, line)
         == if |x| > 1 && x[0] == '\r' && x[1] == '\n' then line + "\n" + Shown(x[2..] + s, "")
            else if x[0] == '\r' then Shown(x[1..] + s, "")
            else if x[0] == '\n' then line + "\n" + Shown(x[1..] + s, "")
            else Shown(x[1..] + s, line + [x[0]])
  {
    assert x[0] in x && (x + s)[0] == x[0];
    assert SequenceLength(x + s) == 0;
    assert (x + s)[1..] == x[1..] + s;
    assert |x| > 1 ==> (x + s)[2..] == x[2..] + s && (x + s)[1] == x[1];
    hide SequenceLength;
  }

  predicate EscFree(s: string) {
    '\U{1B}' !in s
  }

  /** Without escapes, a bare carriage return leaves only what comes after it. */
  lemma {:induction false} LastFrameWins(x: string, y: string, line: string)
    requires EscFree(x) && LfFree(x) && (|y| == 0 || y[0] != '\n')
    ensures Shown(x + ("\r" + y), line) == Shown(y, "")
    decreases |x|
  {
    var s := x + ("\r" + y);
    if |x| == 0 {
      assert s[0] == '\r' && s[1..] == y;
      assert |s| > 1 ==> s[1] == y[0];
    } else {
      TailOfConcat(x, "\r" + y);
      assert x[0] in x && s[0] == x[0] && s[0] != ESC && s[0] != '\n';
      LfFreeTail(x, 1);
      assert EscFree(x[1..]) by {
        assert forall c :: c in x[1..] ==> c in x;
      }
      assert |s| > 1 && s[1] == if |x| > 1 then x[1] else '\r';
      assert |x| > 1 ==> x[1] in x;
      LastFrameWins(x[1..], y, "");
      LastFrameWins(x[1..], y, line + [x[0]]);
    }
  }

  /** Text without escapes and carriage returns is shown as it is. */
  lemma {:induction false} PlainTextIsKept(s: string, line: string)
    requires EscFree(s) && CrFree(s)
    ensures Shown(s, line) == line + s
    decreases |s|
  {
    if |s| > 0 {
      var t := s[1..];
      assert s[0] in s && s == [s[0]] + t;
      assert EscFree(t) && CrFree(t) by {
        assert forall c :: c in t ==> c in s;
      }
      if s[0] == '\n' {
        PlainTextIsKept(t, "");
        assert "" + t == t;
        Regroup3(line, "\n", t);
      } else {
        PlainTextIsKept(t, line + [s[0]]);
        Regroup3(line, [s[0]], t);
      }
    } else {
      assert line + s == line;
    }
  }
}
