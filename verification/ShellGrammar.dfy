/** What the shell tokenizer accepts: a grammar of blank-separated words, and the words that they stand for. */
module ShellGrammar {
  import opened Text
  import opened ShellWords

  // ----- The grammar -----

  /** A character inside double quotes, perhaps behind a backslash. */
  datatype Inner = Inner(c: char, escaped: bool)

  datatype Piece =
    | Plain(c: char)
    | Escaped(c: char)
    | Single(text: string)
    | Double(inner: seq<Inner>)

  /** A word is a sequence of pieces with nothing between them, at least one. */
  type Word = seq<Piece>

  predicate IsBlank(c: char) {
    c == ' ' || c == '\t'
  }

  predicate IsPlain(c: char) {
    !IsBlank(c) && c !in {'\\', '\'', '"', '|', '&', ';', '(', ')', '<', '>', '\n'}
  }

  predicate IsInner(inner: Inner) {
    inner.escaped || (inner.c != '"' && inner.c != '\\')
  }

  predicate IsPiece(piece: Piece) {
    match piece
    case Plain(c) => IsPlain(c)
    case Escaped(_) => true
    case Single(text) => '\'' !in text
    case Double(inner) => forall i :: 0 <= i < |inner| ==> IsInner(inner[i])
  }

  predicate AllPieces(word: Word) {
    forall i :: 0 <= i < |word| ==> IsPiece(word[i])
  }

  function InnerText(inner: seq<Inner>): string {
    if |inner| == 0 then ""
    else
      var last := inner[|inner| - 1];
      InnerText(inner[..|inner| - 1]) + (if last.escaped then ['\\', last.c] else [last.c])
  }

  function InnerValue(inner: seq<Inner>): string {
    if |inner| == 0 then "" else InnerValue(inner[..|inner| - 1]) + [inner[|inner| - 1].c]
  }

  /** A piece as it is written, and what it stands for. */
  function PieceText(piece: Piece): string {
    match piece
    case Plain(c) => [c]
    case Escaped(c) => ['\\', c]
    case Single(text) => "'" + (text + "'")
    case Double(inner) => "\"" + (InnerText(inner) + "\"")
  }

  function PieceValue(piece: Piece): string {
    match piece
    case Plain(c) => [c]
    case Escaped(c) => [c]
    case Single(text) => text
    case Double(inner) => InnerValue(inner)
  }

  function WordText(word: Word): string {
    if |word| == 0 then "" else WordText(word[..|word| - 1]) + PieceText(word[|word| - 1])
  }

  function WordValue(word: Word): string {
    if |word| == 0 then "" else WordValue(word[..|word| - 1]) + PieceValue(word[|word| - 1])
  }

  /** Quoted when a stretch of it is, open to expansion when a plain character of it is a wildcard. */
  predicate HasQuotes(word: Word) {
    exists i :: 0 <= i < |word| && (word[i].Single? || word[i].Double?)
  }

  predicate HasWildcard(word: Word) {
    exists i :: 0 <= i < |word| && word[i].Plain? && (word[i].c == '*' || word[i].c == '?' || word[i].c == '[')
  }

  function TokenOf(word: Word): Token {
    Token(WordValue(word), HasQuotes(word), HasWildcard(word))
  }

  function TokensOf(words: seq<Word>): seq<Token> {
    if |words| == 0 then [] else TokensOf(words[..|words| - 1]) + [TokenOf(words[|words| - 1])]
  }

  predicate Blanks(s: string) {
    forall i :: 0 <= i < |s| ==> IsBlank(s[i])
  }

  /** The text is these words, with blanks around them and at least one between any two. */
  ghost predicate IsCommand(s: string, words: seq<Word>) {
    if |words| == 0 then Blanks(s)
    else exists front, tail :: EndsInLast(s, words, front, tail) && IsFront(front, words[..|words| - 1])
  }

  /** The words, and a blank after the last one. */
  ghost predicate IsFront(s: string, words: seq<Word>)
    decreases |words|
  {
    if |words| == 0 then Blanks(s)
    else exists front, tail :: EndsInLast(s, words, front, tail) && tail != "" && IsFront(front, words[..|words| - 1])
  }

  ghost predicate EndsInLast(s: string, words: seq<Word>, front: string, tail: string)
    requires |words| > 0
  {
    EndsInWord(s, words[|words| - 1], front, tail)
  }

  ghost predicate EndsInWord(s: string, word: Word, front: string, tail: string) {
    s == front + (WordText(word) + tail) && Blanks(tail) && |word| > 0 && AllPieces(word)
  }

  // ----- What the scan makes of it -----

  /** Between pieces of a word, or between words. */
  predicate Outside(st: Scan) {
    !st.single && !st.double && !st.escaped
  }

  function AddedTo(st: Scan, piece: Piece): Scan {
    st.(current := st.current + PieceValue(piece), started := true,
        quoted := st.quoted || piece.Single? || piece.Double?,
        glob := st.glob || (piece.Plain? && (piece.c == '*' || piece.c == '?' || piece.c == '[')))
  }

  lemma {:induction false} ScanOne(st: Scan, c: char)
    ensures Scanned(st, [c]) == Step(st, c)
  {
    assert [c][1..] == "" && [c][0] == c;
  }

  lemma {:induction false} ScanSingle(st: Scan, text: string)
    requires st.single && !st.double && !st.escaped && '\'' !in text && st.started
    ensures Scanned(st, text) == Some(st.(current := st.current + text))
    decreases |text|
  {
    if text == "" {
      assert st.current + text == st.current;
    } else {
      assert text[0] in text && forall c :: c in text[1..] ==> c in text;
      ScanSingle(st.(current := st.current + [text[0]]), text[1..]);
      assert st.current + [text[0]] + text[1..] == st.current + text;
    }
  }

  lemma {:induction false} ScanInner(st: Scan, inner: seq<Inner>)
    requires st.double && !st.single && !st.escaped && st.started && forall i :: 0 <= i < |inner| ==> IsInner(inner[i])
    ensures Scanned(st, InnerText(inner)) == Some(st.(current := st.current + InnerValue(inner)))
    decreases |inner|
  {
    if |inner| == 0 {
      assert st.current + "" == st.current;
    } else {
      var front, last := inner[..|inner| - 1], inner[|inner| - 1];
      ScanInner(st, front);
      var mid := st.(current := st.current + InnerValue(front));
      ScanConcat(st, InnerText(front), if last.escaped then ['\\', last.c] else [last.c]);
      ScanOne(mid, last.c);
      if last.escaped {
        ScanOne(mid, '\\');
        ScanOne(mid.(escaped := true), last.c);
        assert ['\\', last.c] == ['\\'] + [last.c];
        ScanConcat(mid, ['\\'], [last.c]);
      }
      assert st.current + InnerValue(front) + [last.c] == st.current + InnerValue(inner);
    }
  }

  lemma {:induction false} ScanPiece(st: Scan, piece: Piece)
    requires Outside(st) && IsPiece(piece)
    ensures Scanned(st, PieceText(piece)) == Some(AddedTo(st, piece))
  {
    match piece
    case Plain(c) => ScanOne(st, c);
    case Escaped(c) =>
      assert ['\\', c] == ['\\'] + [c];
      ScanOne(st, '\\');
      ScanOne(st.(escaped := true, started := true), c);
      ScanConcat(st, ['\\'], [c]);
    case Single(text) =>
      var inside := st.(single := true, quoted := true, started := true);
      ScanOne(st, '\'');
      ScanSingle(inside, text);
      ScanOne(inside.(current := st.current + text), '\'');
      ScanConcat(inside, text, "'");
      ScanConcat(st, "'", text + "'");
    case Double(inner) =>
      var inside := st.(double := true, quoted := true, started := true);
      ScanOne(st, '"');
      ScanInner(inside, inner);
      ScanOne(inside.(current := st.current + InnerValue(inner)), '"');
      ScanConcat(inside, InnerText(inner), "\"");
      ScanConcat(st, "\"", InnerText(inner) + "\"");
  }

  /** The scan between pieces of a word, after these. */
  function Reading(tokens: seq<Token>, word: Word): Scan {
    Scan(tokens, WordValue(word), false, false, false, HasQuotes(word), HasWildcard(word), |word| > 0)
  }

  lemma {:induction false} ReadingMore(tokens: seq<Token>, word: Word, piece: Piece)
    ensures AddedTo(Reading(tokens, word), piece) == Reading(tokens, word + [piece])
    ensures WordText(word + [piece]) == WordText(word) + PieceText(piece)
  {
    var more := word + [piece];
    assert more[..|word|] == word && more[|word|] == piece;
    assert forall i :: 0 <= i < |word| ==> more[i] == word[i];
    if HasQuotes(word) {
      var i :| 0 <= i < |word| && (word[i].Single? || word[i].Double?);
      assert more[i] == word[i];
    }
    if HasWildcard(word) {
      var i :| 0 <= i < |word| && word[i].Plain? && (word[i].c == '*' || word[i].c == '?' || word[i].c == '[');
      assert more[i] == word[i];
    }
  }

  lemma {:induction false} ScanWord(tokens: seq<Token>, word: Word)
    requires AllPieces(word)
    ensures Scanned(Reading(tokens, []), WordText(word)) == Some(Reading(tokens, word))
  {
    if |word| > 0 {
      var n := |word| - 1;
      ScanWord(tokens, word[..n]);
      ScanPiece(Reading(tokens, word[..n]), word[n]);
      ReadingMore(tokens, word[..n], word[n]);
      assert word[..n] + [word[n]] == word;
      ScanConcat(Reading(tokens, []), WordText(word[..n]), PieceText(word[n]));
    }
  }

  lemma {:induction false} ScanBlanks(st: Scan, s: string)
    requires Outside(st) && Blanks(s)
    ensures Scanned(st, s) == Some(if s == "" then st else Flush(st))
    decreases |s|
  {
    if s != "" {
      assert IsBlank(s[0]) && Blanks(s[1..]);
      ScanBlanks(Flush(st), s[1..]);
    }
  }

  lemma {:induction false} ScanEnding(s: string, word: Word, front: string, tail: string, tokens: seq<Token>)
    requires EndsInWord(s, word, front, tail) && Scanned(START, front) == Some(Reading(tokens, []))
    ensures Scanned(START, s) == Some(if tail == "" then Reading(tokens, word) else Reading(tokens + [TokenOf(word)], []))
  {
    hide Scanned, Step, WordText, WordValue, HasQuotes, HasWildcard;
    ScanWord(tokens, word);
    ScanBlanks(Reading(tokens, word), tail);
    ScanConcat(START, front, WordText(word) + tail);
    ScanConcat(Reading(tokens, []), WordText(word), tail);
    NoWord();
  }

  lemma {:induction false} NoWord()
    ensures WordValue([]) == "" && !HasQuotes([]) && !HasWildcard([])
  {
  }

  lemma {:induction false} ScanFront(s: string, words: seq<Word>)
    requires IsFront(s, words)
    ensures Scanned(START, s) == Some(Reading(TokensOf(words), []))
    decreases |words|
  {
    hide Scanned, Step, EndsInWord, TokenOf;
    if |words| == 0 {
      ScanBlanks(START, s);
      NoWord();
    } else {
      var n := |words| - 1;
      var front, tail :| EndsInLast(s, words, front, tail) && tail != "" && IsFront(front, words[..n]);
      ScanFront(front, words[..n]);
      ScanEnding(s, words[n], front, tail, TokensOf(words[..n]));
    }
  }

  lemma {:induction false} CommandIsRead(s: string, words: seq<Word>)
    requires IsCommand(s, words)
    ensures Tokenize(s) == Some(TokensOf(words))
  {
    hide Scanned, Step, EndsInWord;
    if |words| == 0 {
      ScanFront(s, words);
    } else {
      var n := |words| - 1;
      var front, tail :| EndsInLast(s, words, front, tail) && IsFront(front, words[..n]);
      ScanFront(front, words[..n]);
      ScanEnding(s, words[n], front, tail, TokensOf(words[..n]));
      assert |words[n]| > 0 by {
        assert EndsInWord(s, words[n], front, tail);
        NotEmpty(s, words[n], front, tail);
      }
    }
  }

  lemma {:induction false} NotEmpty(s: string, word: Word, front: string, tail: string)
    requires EndsInWord(s, word, front, tail)
    ensures |word| > 0
  {
  }

  // ----- What is scanned is a command -----

  /** A stretch of a word that is not at its end yet. */
  datatype Open =
    | Closed
    | Slash
    | InSingle(text: string)
    | InDouble(inner: seq<Inner>)
    | InDoubleSlash(inner: seq<Inner>)

  function OpenText(open: Open): string {
    match open
    case Closed => ""
    case Slash => "\\"
    case InSingle(text) => "'" + text
    case InDouble(inner) => "\"" + InnerText(inner)
    case InDoubleSlash(inner) => "\"" + (InnerText(inner) + "\\")
  }

  function OpenValue(open: Open): string {
    match open
    case InSingle(text) => text
    case InDouble(inner) => InnerValue(inner)
    case InDoubleSlash(inner) => InnerValue(inner)
    case _ => ""
  }

  predicate IsOpen(open: Open) {
    match open
    case InSingle(text) => '\'' !in text
    case InDouble(inner) => forall i :: 0 <= i < |inner| ==> IsInner(inner[i])
    case InDoubleSlash(inner) => forall i :: 0 <= i < |inner| ==> IsInner(inner[i])
    case _ => true
  }

  /** The text so far: whole words and blanks, then a word and a stretch that is still open. */
  datatype Part = Part(front: string, words: seq<Word>, word: Word, open: Open)

  ghost predicate IsPart(part: Part) {
    IsFront(part.front, part.words) && AllPieces(part.word) && IsOpen(part.open)
  }

  function PartText(part: Part): string {
    part.front + (WordText(part.word) + OpenText(part.open))
  }

  function PartScan(part: Part): Scan {
    var double := part.open.InDouble? || part.open.InDoubleSlash?;
    Scan(TokensOf(part.words), WordValue(part.word) + OpenValue(part.open), part.open.InSingle?, double,
         part.open.Slash? || part.open.InDoubleSlash?, HasQuotes(part.word) || part.open.InSingle? || double,
         HasWildcard(part.word), |part.word| > 0 || !part.open.Closed?)
  }

  lemma {:induction false} InnerMore(inner: seq<Inner>, last: Inner)
    ensures InnerText(inner + [last]) == InnerText(inner) + (if last.escaped then ['\\', last.c] else [last.c])
    ensures InnerValue(inner + [last]) == InnerValue(inner) + [last.c]
  {
    assert (inner + [last])[..|inner|] == inner;
  }

  lemma {:induction false} BlankAfterBlank(part: Part, c: char) returns (next: Part)
    requires IsPart(part) && part.open.Closed? && IsBlank(c) && |part.word| == 0
    ensures IsPart(next) && PartText(next) == PartText(part) + [c] && PartScan(next) == Flush(PartScan(part))
  {
    NoWord();
    next := part.(front := part.front + [c]);
    FrontMore(part.front, part.words, c);
    hide IsFront;
    assert WordText([]) + "" == "" && part.front + "" == part.front && next.front + "" == next.front;
  }

  lemma {:induction false} BlankAfterWord(part: Part, c: char) returns (next: Part)
    requires IsPart(part) && part.open.Closed? && IsBlank(c) && |part.word| > 0
    ensures IsPart(next) && PartText(next) == PartText(part) + [c] && PartScan(next) == Flush(PartScan(part))
  {
    hide HasQuotes, HasWildcard;
    NoWord();
    assert WordValue(part.word) + "" == WordValue(part.word);
    next := Part(PartText(part) + [c], part.words + [part.word], [], Closed);
    assert next.words[..|part.words|] == part.words;
    assert WordText(part.word) + "" == WordText(part.word) && WordText([]) + "" == "" && next.front + "" == next.front;
    hide WordText, WordValue, TokensOf;
    Regroup3(part.front, WordText(part.word), [c]);
    assert EndsInLast(next.front, next.words, part.front, [c]);
  }

  lemma {:induction false} FrontMore(s: string, words: seq<Word>, c: char)
    requires IsFront(s, words) && IsBlank(c)
    ensures IsFront(s + [c], words)
  {
    if |words| > 0 {
      var n := |words| - 1;
      var front, tail :| EndsInLast(s, words, front, tail) && tail != "" && IsFront(front, words[..n]);
      Regroup3(front, WordText(words[n]) + tail, [c]);
      Regroup3(WordText(words[n]), tail, [c]);
      assert EndsInLast(s + [c], words, front, tail + [c]);
    }
  }

  /** A piece is complete. */
  lemma {:induction false} PieceEnds(part: Part, piece: Piece, c: char) returns (next: Part)
    requires IsPart(part) && IsPiece(piece)
    requires PieceText(piece) == OpenText(part.open) + [c]
    ensures next == Part(part.front, part.words, part.word + [piece], Closed)
    ensures IsPart(next) && PartText(next) == PartText(part) + [c]
    ensures PartScan(next) == AddedTo(Reading(TokensOf(part.words), part.word), piece)
  {
    hide PieceText, PieceValue, WordText, IsFront;
    next := Part(part.front, part.words, part.word + [piece], Closed);
    ReadingMore(TokensOf(part.words), part.word, piece);
    Regroup3(WordText(part.word), OpenText(part.open), [c]);
    Regroup3(part.front, WordText(part.word) + OpenText(part.open), [c]);
    assert WordText(next.word) + "" == WordText(next.word);
    assert WordValue(next.word) + "" == WordValue(next.word);
  }

  /** A stretch goes on. */
  lemma {:induction false} StretchGoesOn(part: Part, open: Open, c: char) returns (next: Part)
    requires IsPart(part) && IsOpen(open) && OpenText(open) == OpenText(part.open) + [c]
    ensures next == part.(open := open) && IsPart(next) && PartText(next) == PartText(part) + [c]
  {
    hide WordText, IsFront;
    next := part.(open := open);
    Regroup3(WordText(part.word), OpenText(part.open), [c]);
    Regroup3(part.front, WordText(part.word) + OpenText(part.open), [c]);
  }

  lemma {:induction false} CharOutside(part: Part, c: char) returns (next: Part)
    requires IsPart(part) && part.open.Closed? && Step(PartScan(part), c).Some?
    ensures IsPart(next) && PartText(next) == PartText(part) + [c] && Step(PartScan(part), c) == Some(PartScan(next))
  {
    hide IsFront, WordText, TokensOf, HasQuotes, HasWildcard, WordValue;
    assert WordValue(part.word) + "" == WordValue(part.word);
    if c == '\\' {
      next := StretchGoesOn(part, Slash, c);
    } else if c == '\'' {
      next := StretchGoesOn(part, InSingle(""), c);
    } else if c == '"' {
      next := StretchGoesOn(part, InDouble([]), c);
    } else if !IsBlank(c) {
      next := PieceEnds(part, Plain(c), c);
    } else if |part.word| == 0 {
      next := BlankAfterBlank(part, c);
    } else {
      next := BlankAfterWord(part, c);
    }
  }

  lemma {:induction false} CharInSingle(part: Part, c: char) returns (next: Part)
    requires IsPart(part) && part.open.InSingle?
    ensures IsPart(next) && PartText(next) == PartText(part) + [c] && Step(PartScan(part), c) == Some(PartScan(next))
  {
    hide IsFront, WordText, TokensOf, HasQuotes, HasWildcard, WordValue;
    var text := part.open.text;
    Regroup3("'", text, [c]);
    Regroup3(WordValue(part.word), text, [c]);
    if c == '\'' {
      next := PieceEnds(part, Single(text), c);
    } else {
      next := StretchGoesOn(part, InSingle(text + [c]), c);
    }
  }

  lemma {:induction false} CharInDouble(part: Part, c: char) returns (next: Part)
    requires IsPart(part) && part.open.InDouble?
    ensures IsPart(next) && PartText(next) == PartText(part) + [c] && Step(PartScan(part), c) == Some(PartScan(next))
  {
    hide IsFront, WordText, TokensOf, HasQuotes, HasWildcard, WordValue, InnerText, InnerValue;
    var inner := part.open.inner;
    Regroup3("\"", InnerText(inner), [c]);
    Regroup3(WordValue(part.word), InnerValue(inner), [c]);
    if c == '\\' {
      next := StretchGoesOn(part, InDoubleSlash(inner), c);
    } else if c == '"' {
      next := PieceEnds(part, Double(inner), c);
    } else {
      InnerMore(inner, Inner(c, false));
      next := StretchGoesOn(part, InDouble(inner + [Inner(c, false)]), c);
    }
  }

  lemma {:induction false} CharInDoubleSlash(part: Part, c: char) returns (next: Part)
    requires IsPart(part) && part.open.InDoubleSlash?
    ensures IsPart(next) && PartText(next) == PartText(part) + [c] && Step(PartScan(part), c) == Some(PartScan(next))
  {
    hide IsFront, WordText, TokensOf, HasQuotes, HasWildcard, WordValue, InnerText, InnerValue;
    var inner := part.open.inner;
    InnerMore(inner, Inner(c, true));
    Regroup3(InnerText(inner), "\\", [c]);
    assert "\\" + [c] == ['\\', c];
    Regroup3("\"", InnerText(inner) + "\\", [c]);
    Regroup3(WordValue(part.word), InnerValue(inner), [c]);
    next := StretchGoesOn(part, InDouble(inner + [Inner(c, true)]), c);
  }

  /** One character more. */
  lemma {:induction false} CharReads(part: Part, c: char) returns (next: Part)
    requires IsPart(part) && Step(PartScan(part), c).Some?
    ensures IsPart(next) && PartText(next) == PartText(part) + [c] && Step(PartScan(part), c) == Some(PartScan(next))
  {
    match part.open
    case Closed => next := CharOutside(part, c);
    case Slash =>
      hide IsFront, WordText, TokensOf, HasQuotes, HasWildcard, WordValue;
      assert WordValue(part.word) + "" == WordValue(part.word);
      next := PieceEnds(part, Escaped(c), c);
    case InSingle(_) => next := CharInSingle(part, c);
    case InDouble(_) => next := CharInDouble(part, c);
    case InDoubleSlash(_) => next := CharInDoubleSlash(part, c);
  }

  lemma {:induction false} ScannedReads(part: Part, s: string) returns (whole: Part)
    requires IsPart(part) && Scanned(PartScan(part), s).Some?
    ensures IsPart(whole) && PartText(whole) == PartText(part) + s && Scanned(PartScan(part), s) == Some(PartScan(whole))
    decreases |s|
  {
    hide IsPart, PartText, PartScan, Step;
    if s == "" {
      assert PartText(part) + s == PartText(part);
      return part;
    }
    var next := CharReads(part, s[0]);
    whole := ScannedReads(next, s[1..]);
    Regroup3(PartText(part), [s[0]], s[1..]);
    assert [s[0]] + s[1..] == s;
  }

  /** What is tokenized is a command. */
  lemma {:induction false} ReadIsCommand(s: string) returns (words: seq<Word>)
    requires Tokenize(s).Some?
    ensures IsCommand(s, words) && Tokenize(s) == Some(TokensOf(words))
  {
    var none := Part("", [], [], Closed);
    NoWord();
    assert PartText(none) == "" && PartScan(none) == START;
    var part := ScannedReads(none, s);
    EmptyConcat(PartText(none), s);
    assert part.open.Closed?;
    assert WordText(part.word) + "" == WordText(part.word) && WordValue(part.word) + "" == WordValue(part.word);
    if |part.word| == 0 {
      words := part.words;
      assert part.front + (WordText([]) + "") == part.front;
      FrontIsCommand(s, words);
    } else {
      words := part.words + [part.word];
      assert words[..|part.words|] == part.words;
      assert EndsInLast(s, words, part.front, "");
    }
  }

  lemma {:induction false} FrontIsCommand(s: string, words: seq<Word>)
    requires IsFront(s, words)
    ensures IsCommand(s, words)
  {
  }

  /** A text is tokenized exactly when it is a command, and then into the tokens of its words. */
  lemma {:induction false} TokenizesCommands(s: string)
    ensures Tokenize(s).Some? <==> exists words :: IsCommand(s, words)
    ensures forall words :: IsCommand(s, words) ==> Tokenize(s) == Some(TokensOf(words))
  {
    if Tokenize(s).Some? {
      var words := ReadIsCommand(s);
    }
    forall words | IsCommand(s, words) ensures Tokenize(s) == Some(TokensOf(words)) {
      CommandIsRead(s, words);
    }
  }
}
