/** Shell words: a tokenizer for one simple command, and the quoting that it reads back. */
module ShellWords {
  import opened Text

  // ----- The tokenizer -----

  datatype Token = Token(raw: string, quoted: bool, hasGlob: bool)

  /** The tokens so far, the word being read, and the flags of the scan. */
  datatype Scan = Scan(tokens: seq<Token>, current: string, single: bool, double: bool, escaped: bool,
                       quoted: bool, glob: bool, started: bool)

  const START := Scan([], "", false, false, false, false, false, false)

  predicate IsControlOperator(c: char) {
    c == '|' || c == '&' || c == ';' || c == '(' || c == ')' || c == '<' || c == '>' || c == '\n'
  }

  function Flush(st: Scan): Scan {
    if !st.started then st
    else st.(tokens := st.tokens + [Token(st.current, st.quoted, st.glob)], current := "", quoted := false, glob := false, started := false)
  }

  /** One character; none at an unquoted control operator. */
  function Step(st: Scan, c: char): Option<Scan> {
    if st.escaped then Some(st.(current := st.current + [c], escaped := false, started := true))
    else if c == '\\' && !st.single then Some(st.(escaped := true, started := true))
    else if c == '\'' && !st.double then Some(st.(single := !st.single, quoted := true, started := true))
    else if c == '"' && !st.single then Some(st.(double := !st.double, quoted := true, started := true))
    else if !st.single && !st.double && IsControlOperator(c) then None
    else if !st.single && !st.double && (c == ' ' || c == '\t') then Some(Flush(st))
    else
      var active := !st.single && !st.double && (c == '*' || c == '?' || c == '[');
      Some(st.(current := st.current + [c], glob := st.glob || active, started := true))
  }

  function Scanned(st: Scan, s: string): Option<Scan>
    decreases |s|
  {
    if |s| == 0 then Some(st)
    else
      var next := Step(st, s[0]);
      if next.None? then None else Scanned(next.value, s[1..])
  }

  function Finish(st: Scan): Option<seq<Token>> {
    if st.single || st.double || st.escaped then None else Some(Flush(st).tokens)
  }

  function Tokenize(command: string): Option<seq<Token>> {
    var st := Scanned(START, command);
    if st.None? then None else Finish(st.value)
  }

  method TokenizeCommand(command: string) returns (r: Option<seq<Token>>)
    ensures r == Tokenize(command)
  {
    var tokens: seq<Token> := [];
    var current := "";
    var singleQuoted, doubleQuoted, escaped, quoted, glob, started := false, false, false, false, false, false;
    assert command[0..] == command;
    for i := 0 to |command|
      invariant Scanned(START, command) == Scanned(Scan(tokens, current, singleQuoted, doubleQuoted, escaped, quoted, glob, started), command[i..])
    {
      var character := command[i];
      assert command[i..][0] == character && command[i..][1..] == command[i + 1..];
      if escaped {
        current := current + [character];
        escaped, started := false, true;
        continue;
      }
      if character == '\\' && !singleQuoted {
        escaped, started := true, true;
        continue;
      }
      if character == '\'' && !doubleQuoted {
        singleQuoted := !singleQuoted;
        quoted, started := true, true;
        continue;
      }
      if character == '"' && !singleQuoted {
        doubleQuoted := !doubleQuoted;
        quoted, started := true, true;
        continue;
      }
      if !singleQuoted && !doubleQuoted {
        if IsControlOperator(character) {
          return None;
        }
        if character == ' ' || character == '\t' {
          if started {
            tokens := tokens + [Token(current, quoted, glob)];
            current, quoted, glob, started := "", false, false, false;
          }
          continue;
        }
        if character == '*' || character == '?' || character == '[' {
          glob := true;
        }
      }
      current := current + [character];
      started := true;
    }
    if singleQuoted || doubleQuoted || escaped {
      return None;
    }
    if started {
      tokens := tokens + [Token(current, quoted, glob)];
    }
    return Some(tokens);
  }

  // ----- The printer of words -----

  /** `strings.ReplaceAll(word, "'", "'\\''")`. */
  function EscapeQuotes(word: string): string {
    if |word| == 0 then ""
    else (if word[0] == '\'' then "'\\''" else [word[0]]) + EscapeQuotes(word[1..])
  }

  function ShellQuote(word: string): string {
    "'" + (EscapeQuotes(word) + "'")
  }

  function QuotedWords(words: seq<string>): string {
    if |words| == 0 then ""
    else if |words| == 1 then ShellQuote(words[0])
    else ShellQuote(words[0]) + (" " + QuotedWords(words[1..]))
  }

  lemma {:induction false} ScanConcat(st: Scan, a: string, b: string)
    ensures Scanned(st, a + b) == var mid := Scanned(st, a); if mid.None? then None else Scanned(mid.value, b)
    decreases |a|
  {
    if |a| == 0 {
      EmptyConcat(a, b);
    } else {
      TailOfConcat(a, b);
      var next := Step(st, a[0]);
      if next.Some? {
        ScanConcat(next.value, a[1..], b);
      }
    }
  }

  /** Inside single quotes, reading a quoted word. */
  predicate InQuote(st: Scan) {
    st.single && !st.double && !st.escaped && st.quoted && st.started
  }

  lemma {:induction false} QuoteEscape(st: Scan)
    requires InQuote(st)
    ensures Scanned(st, "'\\''") == Some(st.(current := st.current + "'"))
  {
    var s := "'\\''";
    var st1 := Step(st, s[0]).value;
    var st2 := Step(st1, s[1]).value;
    var st3 := Step(st2, s[2]).value;
    assert s[1..] == "\\''" && s[1..][1..] == "''" && s[1..][1..][1..] == "'" && s[1..][1..][1..][1..] == "";
    assert Scanned(st3, "'") == Step(st3, '\'');
    assert Scanned(st2, "''") == Scanned(st3, "'");
    assert Scanned(st1, "\\''") == Scanned(st2, "''");
  }

  lemma {:induction false} OneChar(st: Scan, c: char)
    requires InQuote(st) && c != '\''
    ensures Scanned(st, [c]) == Some(st.(current := st.current + [c]))
  {
    assert [c][1..] == "";
  }

  lemma {:induction false} BodyIsRead(st: Scan, word: string)
    requires InQuote(st)
    ensures Scanned(st, EscapeQuotes(word)) == Some(st.(current := st.current + word))
    decreases |word|
  {
    hide Scanned;
    if |word| == 0 {
      NothingRead(st);
      assert st.current + word == st.current;
    } else {
      var c, rest := word[0], word[1..];
      var first := if c == '\'' then "'\\''" else [c];
      if c == '\'' { QuoteEscape(st); } else { OneChar(st, c); }
      var next := st.(current := st.current + [c]);
      assert "'" == ['\''];
      ScanConcat(st, first, EscapeQuotes(rest));
      BodyIsRead(next, rest);
      assert (st.current + [c]) + rest == st.current + word;
    }
  }

  lemma {:induction false} NothingRead(st: Scan)
    ensures Scanned(st, "") == Some(st)
  {
  }

  /** Between words. */
  predicate Idle(st: Scan) {
    !st.single && !st.double && !st.escaped && !st.quoted && !st.glob && !st.started && st.current == ""
  }

  lemma {:induction false} QuoteMark(st: Scan)
    requires !st.double && !st.escaped
    ensures Scanned(st, "'") == Some(st.(single := !st.single, quoted := true, started := true))
  {
    assert "'"[0] == '\'' && "'"[1..] == "";
  }

  lemma {:induction false} WordIsRead(st: Scan, word: string)
    requires Idle(st)
    ensures Scanned(st, ShellQuote(word)) == Some(st.(current := word, quoted := true, started := true))
  {
    hide Scanned;
    var inside := st.(single := true, quoted := true, started := true);
    QuoteMark(st);
    ScanConcat(st, "'", EscapeQuotes(word) + "'");
    BodyIsRead(inside, word);
    assert "" + word == word;
    ScanConcat(inside, EscapeQuotes(word), "'");
    QuoteMark(inside.(current := word));
  }

  /** Quoted and not open to any expansion. */
  function QuotedTokens(words: seq<string>): seq<Token> {
    if |words| == 0 then [] else [Token(words[0], true, false)] + QuotedTokens(words[1..])
  }

  lemma {:induction false} SpaceEndsWord(st: Scan, word: string)
    requires Idle(st)
    ensures var read := st.(current := word, quoted := true, started := true);
            var next := st.(tokens := st.tokens + [Token(word, true, false)]);
            Scanned(read, " ") == Some(next) && Flush(read) == next && Idle(next)
  {
    assert " "[0] == ' ' && " "[1..] == "";
  }

  lemma {:induction false} WordsAreRead(st: Scan, words: seq<string>)
    requires Idle(st)
    ensures var read := Scanned(st, QuotedWords(words));
            read.Some? && Finish(read.value) == Some(st.tokens + QuotedTokens(words))
    decreases |words|
  {
    hide Scanned, ShellQuote;
    if |words| == 0 {
      NothingRead(st);
      assert QuotedTokens(words) == [] && st.tokens + [] == st.tokens;
    } else {
      var word, rest := words[0], words[1..];
      var read := st.(current := word, quoted := true, started := true);
      var next := st.(tokens := st.tokens + [Token(word, true, false)]);
      WordIsRead(st, word);
      SpaceEndsWord(st, word);
      if |words| == 1 {
        assert rest == [] && QuotedTokens(words) == [Token(word, true, false)];
      } else {
        ScanConcat(st, ShellQuote(word), " " + QuotedWords(rest));
        ScanConcat(read, " ", QuotedWords(rest));
        WordsAreRead(next, rest);
        Regroup3(st.tokens, [Token(word, true, false)], QuotedTokens(rest));
      }
    }
  }

  /** Any words whatever, quoted and printed, are read back as exactly those words, none of them open to expansion. */
  lemma {:induction false} QuotedWordsAreRead(words: seq<string>)
    ensures Tokenize(QuotedWords(words)) == Some(QuotedTokens(words))
  {
    WordsAreRead(START, words);
    EmptyConcat([], QuotedTokens(words));
  }
}
