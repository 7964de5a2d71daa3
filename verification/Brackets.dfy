/**
 The bracket checker of the edit engine: a left-to-right scan with a stack, a quote and an escape flag, and the
 grammar of balanced text that it decides.
 */
module Brackets {
  import opened Text

  predicate IsQuote(c: char) {
    c == '\'' || c == '"' || c == '`'
  }

  predicate IsOpen(c: char) {
    c == '(' || c == '[' || c == '{'
  }

  predicate IsClose(c: char) {
    c == ')' || c == ']' || c == '}'
  }

  predicate Pair(open: char, close: char) {
    (open == '(' && close == ')') || (open == '[' && close == ']') || (open == '{' && close == '}')
  }

  function Closer(open: char): (close: char)
    requires IsOpen(open)
    ensures Pair(open, close) && IsClose(close)
  {
    if open == '(' then ')' else if open == '[' then ']' else '}'
  }

  // ----- The scan -----

  /** The rest of a scan: the open brackets, innermost last; the open quote if any; whether it escapes the next character. */
  predicate Scan(s: string, stack: string, quote: Option<char>, escaped: bool)
    decreases |s|
  {
    if |s| == 0 then stack == "" && quote.None?
    else if quote.Some? then
      if escaped then Scan(s[1..], stack, quote, false)
      else if s[0] == '\\' then Scan(s[1..], stack, quote, true)
      else if s[0] == quote.value then Scan(s[1..], stack, None, false)
      else Scan(s[1..], stack, quote, false)
    else if IsQuote(s[0]) then Scan(s[1..], stack, Some(s[0]), false)
    else if IsOpen(s[0]) then Scan(s[1..], stack + [s[0]], None, false)
    else if IsClose(s[0]) then
      |stack| > 0 && Pair(stack[|stack| - 1], s[0]) && Scan(s[1..], stack[..|stack| - 1], None, false)
    else Scan(s[1..], stack, None, false)
  }

  predicate Balanced(s: string) {
    Scan(s, "", None, false)
  }

  method IsBalanced(value: string) returns (ok: bool)
    ensures ok == Balanced(value)
  {
    var stack, quote, escaped := "", None, false;
    for i := 0 to |value|
      invariant escaped ==> quote.Some?
      invariant Scan(value[i..], stack, quote, escaped) == Balanced(value)
    {
      var character := value[i];
      assert value[i..][0] == character && value[i..][1..] == value[i + 1..];
      if quote.Some? {
        if escaped {
          escaped := false;
        } else if character == '\\' {
          escaped := true;
        } else if character == quote.value {
          quote := None;
        }
        continue;
      }
      if IsQuote(character) {
        quote := Some(character);
        continue;
      }
      match character
      case '(' | '[' | '{' => stack := stack + [character];
      case ')' | ']' | '}' =>
        if |stack| == 0 || !Pair(stack[|stack| - 1], character) {
          return false;
        }
        stack := stack[..|stack| - 1];
      case _ =>
    }
    return stack == "" && quote.None?;
  }

  // ----- The grammar -----

  /** A character inside quotes: itself, or any character after a backslash. */
  datatype QuotedChar = Literal(c: char) | Escaped(c: char)

  /** Balanced text is a list of plain characters, quoted stretches, and bracketed balanced texts. */
  datatype Piece =
    | Plain(c: char)
    | Quoted(quote: char, body: seq<QuotedChar>)
    | Group(open: char, inner: seq<Piece>)

  predicate BodyFor(body: seq<QuotedChar>, quote: char) {
    forall i :: 0 <= i < |body| ==> body[i].Literal? ==> body[i].c != quote && body[i].c != '\\'
  }

  predicate WellFormed(p: Piece) {
    match p
    case Plain(c) => c !in {'\'', '"', '`', '(', ')', '[', ']', '{', '}'}
    case Quoted(quote, body) => (quote == '\'' || quote == '"' || quote == '`') && BodyFor(body, quote)
    case Group(open, inner) => (open == '(' || open == '[' || open == '{') && AllWellFormed(inner)
  }

  predicate AllWellFormed(pieces: seq<Piece>) {
    forall i :: 0 <= i < |pieces| ==> WellFormed(pieces[i])
  }

  function BodyText(body: seq<QuotedChar>): string {
    if |body| == 0 then ""
    else (match body[0] case Literal(c) => [c] case Escaped(c) => ['\\', c]) + BodyText(body[1..])
  }

  function PieceText(p: Piece): string
    requires WellFormed(p)
    decreases p, 0
  {
    match p
    case Plain(c) => [c]
    case Quoted(quote, body) => [quote] + (BodyText(body) + [quote])
    case Group(open, inner) => [open] + (PiecesText(inner) + [Closer(open)])
  }

  function PiecesText(pieces: seq<Piece>): string
    requires AllWellFormed(pieces)
    decreases pieces, 1
  {
    if |pieces| == 0 then "" else PieceText(pieces[0]) + PiecesText(pieces[1..])
  }

  ghost predicate InGrammar(s: string) {
    exists pieces: seq<Piece> :: AllWellFormed(pieces) && PiecesText(pieces) == s
  }

  // ----- What the grammar derives is accepted -----

  lemma {:induction false} ScanHead(c: char, rest: string)
    ensures ([c] + rest)[0] == c && ([c] + rest)[1..] == rest
  {
  }

  lemma {:induction false} ScanBody(body: seq<QuotedChar>, quote: char, rest: string, stack: string)
    requires IsQuote(quote) && BodyFor(body, quote)
    ensures Scan(BodyText(body) + ([quote] + rest), stack, Some(quote), false) == Scan(rest, stack, None, false)
  {
    var tail := [quote] + rest;
    if |body| == 0 {
      EmptyConcat(BodyText(body), tail);
      ScanHead(quote, rest);
    } else {
      ScanBody(body[1..], quote, rest, stack);
      var more := BodyText(body[1..]);
      match body[0]
      case Literal(c) =>
        Regroup3([c], more, tail);
        ScanHead(c, more + tail);
      case Escaped(c) =>
        Regroup4(['\\'], [c], more, tail);
        assert ['\\', c] + more == (['\\'] + [c]) + more;
        ScanHead('\\', [c] + (more + tail));
        ScanHead(c, more + tail);
    }
  }

  lemma {:induction false} ScanPiece(p: Piece, rest: string, stack: string)
    requires WellFormed(p)
    ensures Scan(PieceText(p) + rest, stack, None, false) == Scan(rest, stack, None, false)
    decreases p, 0
  {
    match p
    case Plain(c) => ScanHead(c, rest);
    case Quoted(quote, body) =>
      Regroup3([quote], BodyText(body) + [quote], rest);
      Regroup3(BodyText(body), [quote], rest);
      ScanHead(quote, BodyText(body) + ([quote] + rest));
      ScanBody(body, quote, rest, stack);
    case Group(open, inner) =>
      var close := Closer(open);
      Regroup3([open], PiecesText(inner) + [close], rest);
      Regroup3(PiecesText(inner), [close], rest);
      ScanHead(open, PiecesText(inner) + ([close] + rest));
      ScanPieces(inner, [close] + rest, stack + [open]);
      ScanHead(close, rest);
      assert (stack + [open])[..|stack|] == stack;
  }

  lemma {:induction false} ScanPieces(pieces: seq<Piece>, rest: string, stack: string)
    requires AllWellFormed(pieces)
    ensures Scan(PiecesText(pieces) + rest, stack, None, false) == Scan(rest, stack, None, false)
    decreases pieces, 1
  {
    if |pieces| == 0 {
      EmptyConcat(PiecesText(pieces), rest);
    } else {
      Regroup3(PieceText(pieces[0]), PiecesText(pieces[1..]), rest);
      ScanPiece(pieces[0], PiecesText(pieces[1..]) + rest, stack);
      ScanPieces(pieces[1..], rest, stack);
    }
  }

  // ----- What is accepted is derived -----

  predicate AllOpen(stack: string) {
    forall i :: 0 <= i < |stack| ==> IsOpen(stack[i])
  }

  predicate AllForests(forests: seq<seq<Piece>>) {
    forall i :: 0 <= i < |forests| ==> AllWellFormed(forests[i])
  }

  /** Text that closes every bracket of the stack, innermost first, with balanced text before, between and after. */
  function Closing(forests: seq<seq<Piece>>, stack: string): string
    requires |forests| == |stack| + 1 && AllForests(forests) && AllOpen(stack)
    decreases |stack|
  {
    if |stack| == 0 then PiecesText(forests[0])
    else PiecesText(forests[0]) + ([Closer(stack[|stack| - 1])] + Closing(forests[1..], stack[..|stack| - 1]))
  }

  ghost predicate Derives(s: string, stack: string, forests: seq<seq<Piece>>)
    requires AllOpen(stack)
  {
    |forests| == |stack| + 1 && AllForests(forests) && Closing(forests, stack) == s
  }

  lemma {:induction false} Prepend(p: Piece, s: string, stack: string, forests: seq<seq<Piece>>) returns (more: seq<seq<Piece>>)
    requires WellFormed(p) && AllOpen(stack) && Derives(s, stack, forests)
    ensures Derives(PieceText(p) + s, stack, more)
  {
    var first := [p] + forests[0];
    more := [first] + forests[1..];
    assert first[1..] == forests[0] && more[1..] == forests[1..];
    if |stack| > 0 {
      Regroup3(PieceText(p), PiecesText(forests[0]),
               [Closer(stack[|stack| - 1])] + Closing(forests[1..], stack[..|stack| - 1]));
    }
  }

  /** An accepted text inside a quote runs to the end of the quote. */
  lemma {:induction false} BodyOf(s: string, stack: string, quote: char) returns (body: seq<QuotedChar>, rest: string)
    requires IsQuote(quote) && Scan(s, stack, Some(quote), false)
    ensures BodyFor(body, quote) && s == BodyText(body) + ([quote] + rest) && |rest| < |s|
    ensures Scan(rest, stack, None, false)
    decreases |s|
  {
    if s[0] == quote {
      body, rest := [], s[1..];
    } else if s[0] == '\\' {
      assert s[1..][1..] == s[2..];
      var more;
      more, rest := BodyOf(s[2..], stack, quote);
      body := [Escaped(s[1])] + more;
      assert body[1..] == more;
      assert s == ['\\', s[1]] + s[2..];
      Regroup3(['\\', s[1]], BodyText(more), [quote] + rest);
    } else {
      var more;
      more, rest := BodyOf(s[1..], stack, quote);
      body := [Literal(s[0])] + more;
      assert body[1..] == more;
      assert s == [s[0]] + s[1..];
      Regroup3([s[0]], BodyText(more), [quote] + rest);
    }
  }

  lemma {:induction false} OpenGroup(open: char, s: string, stack: string, forests: seq<seq<Piece>>) returns (more: seq<seq<Piece>>)
    requires AllOpen(stack) && IsOpen(open) && AllOpen(stack + [open]) && Derives(s, stack + [open], forests)
    ensures Derives([open] + s, stack, more)
  {
    assert (stack + [open])[..|stack|] == stack;
    var close := Closer(open);
    var outside := Closing(forests[1..], stack);
    more := Prepend(Group(open, forests[0]), outside, stack, forests[1..]);
    Regroup3([open], PiecesText(forests[0]) + [close], outside);
    Regroup3(PiecesText(forests[0]), [close], outside);
  }

  lemma {:induction false} CloseGroup(close: char, s: string, stack: string, forests: seq<seq<Piece>>) returns (more: seq<seq<Piece>>)
    requires AllOpen(stack) && |stack| > 0 && Pair(stack[|stack| - 1], close)
    requires Derives(s, stack[..|stack| - 1], forests)
    ensures Derives([close] + s, stack, more)
  {
    more := [[]] + forests;
    assert more[1..] == forests;
    EmptyConcat(PiecesText([]), [close] + s);
  }

  lemma {:induction false} PrependQuoted(quote: char, body: seq<QuotedChar>, s: string, stack: string, forests: seq<seq<Piece>>)
    returns (more: seq<seq<Piece>>)
    requires IsQuote(quote) && BodyFor(body, quote) && AllOpen(stack) && Derives(s, stack, forests)
    ensures Derives([quote] + (BodyText(body) + ([quote] + s)), stack, more)
  {
    more := Prepend(Quoted(quote, body), s, stack, forests);
    Regroup3([quote], BodyText(body) + [quote], s);
    Regroup3(BodyText(body), [quote], s);
  }

  /** Every accepted scan can be derived. */
  lemma {:induction false} Derive(s: string, stack: string) returns (forests: seq<seq<Piece>>)
    requires AllOpen(stack) && Scan(s, stack, None, false)
    ensures Derives(s, stack, forests)
    decreases |s|
  {
    if |s| == 0 {
      forests := [[]];
    } else {
      assert s == [s[0]] + s[1..];
      if IsQuote(s[0]) {
        var body, rest := BodyOf(s[1..], stack, s[0]);
        forests := Derive(rest, stack);
        forests := PrependQuoted(s[0], body, rest, stack, forests);
      } else if IsOpen(s[0]) {
        forests := Derive(s[1..], stack + [s[0]]);
        forests := OpenGroup(s[0], s[1..], stack, forests);
      } else if IsClose(s[0]) {
        forests := Derive(s[1..], stack[..|stack| - 1]);
        forests := CloseGroup(s[0], s[1..], stack, forests);
      } else {
        forests := Derive(s[1..], stack);
        forests := Prepend(Plain(s[0]), s[1..], stack, forests);
      }
    }
  }

  /** The scan decides the grammar. */
  lemma {:induction false} BalancedIsGrammar(s: string)
    ensures Balanced(s) <==> InGrammar(s)
  {
    if Balanced(s) {
      var forests := Derive(s, "");
      assert PiecesText(forests[0]) == s;
    }
    if InGrammar(s) {
      var pieces :| AllWellFormed(pieces) && PiecesText(pieces) == s;
      ScanPieces(pieces, "", "");
      assert PiecesText(pieces) + "" == s;
    }
  }

  // ----- Line ends do not matter -----

  /** `strings.ReplaceAll(s, "\n", "\r\n")`. */
  function ToCrlf(s: string): string {
    if |s| == 0 then ""
    else (if s[0] == '\n' then "\r\n" else [s[0]]) + ToCrlf(s[1..])
  }

  lemma {:induction false} ScanCrThenLf(more: string, rest: string, stack: string, quote: Option<char>, escaped: bool)
    requires (quote.Some? ==> IsQuote(quote.value)) && Scan(more, stack, quote, false) == Scan(rest, stack, quote, false)
    ensures Scan("\r\n" + more, stack, quote, escaped) == Scan("\n" + rest, stack, quote, escaped)
  {
    assert "\r\n" + more == ['\r'] + (['\n'] + more);
    ScanHead('\r', ['\n'] + more);
    ScanHead('\n', more);
    ScanHead('\n', rest);
  }

  lemma {:induction false} ScanCrlf(s: string, stack: string, quote: Option<char>, escaped: bool)
    requires quote.Some? ==> IsQuote(quote.value)
    ensures Scan(ToCrlf(s), stack, quote, escaped) == Scan(s, stack, quote, escaped)
    decreases |s|
  {
    if |s| > 0 {
      var c, rest := s[0], s[1..];
      var more := ToCrlf(rest);
      ScanCrlf(rest, stack, quote, false);
      if c == '\n' {
        assert s == "\n" + rest;
        ScanCrThenLf(more, rest, stack, quote, escaped);
      } else {
        ScanHead(c, more);
        if quote.Some? {
          ScanCrlf(rest, stack, quote, true);
          ScanCrlf(rest, stack, None, false);
        } else if IsQuote(c) {
          ScanCrlf(rest, stack, Some(c), false);
        } else if IsOpen(c) {
          ScanCrlf(rest, stack + [c], None, false);
        } else if IsClose(c) && |stack| > 0 {
          ScanCrlf(rest, stack[..|stack| - 1], None, false);
        }
      }
    }
  }

  /** Turning every line feed into CRLF keeps text balanced or unbalanced. */
  lemma {:induction false} CrlfKeepsBalance(s: string)
    ensures Balanced(ToCrlf(s)) == Balanced(s)
  {
    ScanCrlf(s, "", None, false);
  }
}
