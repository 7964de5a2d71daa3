/**
 The terse parser on printed text: a rendering, followed by whatever may follow a value, reads back as the value, and
 leaves what follows unread.

 One lemma for every kind of value and one for every list inside one, each by the step that the parser makes there.
 Whether an array is a table is decided by looking for a bar outside strings and brackets; the lemmas on PipeAt say
 what that search skips.
 */
module TerseReading {
  import opened Text
  import opened JsonString
  import opened KeyOrder
  import opened TerseEncode
  import opened TerseDecode

  /** A value ends where its surroundings do: at the end of the input or at a delimiter. */
  predicate Follows(rest: string) {
    rest == "" || IsDelimiter(rest[0])
  }

  // ----- Scalars -----

  predicate AtomChars(s: string) {
    forall i :: 0 <= i < |s| ==> IsAtomChar(s[i])
  }

  lemma {:induction false} AtomLengthOf(s: string, rest: string)
    requires AtomChars(s) && Follows(rest)
    ensures AtomLength(s + rest) == Some(|s|)
  {
    if s == "" {
      assert s + rest == rest;
    } else {
      assert (s + rest)[1..] == s[1..] + rest && (s + rest)[0] == s[0];
      AtomLengthOf(s[1..], rest);
    }
  }

  lemma {:induction false} AtomParses(s: string, rest: string)
    requires s != "" && AtomChars(s) && s[0] != '"' && Follows(rest)
    ensures ParseValue(s + rest) == Ok(Parsed(AtomValue(s), rest))
  {
    AtomLengthOf(s, rest);
    assert (s + rest)[0] == s[0] && (s + rest)[..|s|] == s && (s + rest)[|s|..] == rest;
  }

  lemma {:induction false} NumberParses(n: string, rest: string)
    requires IsNumber(n) && Follows(rest)
    ensures ParseValue(n + rest) == Ok(Parsed(Number(n), rest))
  {
    hide *;
    NumberIsItsAtom(n);
    AtomParses(n, rest);
  }

  lemma {:induction false} NumberIsItsAtom(n: string)
    requires IsNumber(n)
    ensures n != "" && AtomChars(n) && n[0] != '"' && AtomValue(n) == Number(n)
  {
    hide IsNumber, ParseNumber;
    NumberHasNumberChars(n);
    assert IsNumberChar(n[0]);
    forall i | 0 <= i < |n| ensures IsAtomChar(n[i]) {
      assert IsNumberChar(n[i]);
    }
  }

  predicate IsPlain(c: char) {
    c != '"' && c != '\\'
  }

  lemma {:induction false} QuotedSkips(c: char, rest: string)
    requires IsPlain(c)
    ensures QuotedLength([c] + rest, false)
         == if QuotedLength(rest, false).None? then None else Some(1 + QuotedLength(rest, false).value)
  {
    assert ([c] + rest)[1..] == rest;
  }

  lemma {:induction false} QuotedSkipsPair(c: char, rest: string)
    ensures QuotedLength(['\\', c] + rest, false)
         == if QuotedLength(rest, false).None? then None else Some(2 + QuotedLength(rest, false).value)
  {
    var s := ['\\', c] + rest;
    assert s[1..] == [c] + rest && ([c] + rest)[1..] == rest;
  }

  lemma {:induction false} HexIsPlain(n: nat)
    requires n < 16
    ensures IsPlain(HexDigit(n))
  {
  }

  lemma {:induction false} QuotedSkipsHex(a: char, b: char, c: char, d: char, rest: string)
    requires IsPlain(a) && IsPlain(b) && IsPlain(c) && IsPlain(d)
    ensures QuotedLength(['\\', 'u', a, b, c, d] + rest, false)
         == if QuotedLength(rest, false).None? then None else Some(6 + QuotedLength(rest, false).value)
  {
    QuotedSkips(d, rest);
    QuotedSkips(c, [d] + rest);
    QuotedSkips(b, [c] + ([d] + rest));
    QuotedSkips(a, [b] + ([c] + ([d] + rest)));
    QuotedSkipsPair('u', [a] + ([b] + ([c] + ([d] + rest))));
    assert ['\\', 'u', a, b, c, d] + rest == ['\\', 'u'] + ([a] + ([b] + ([c] + ([d] + rest))));
  }

  lemma {:induction false} QuotedSkipsChar(c: char, rest: string)
    requires QuotedLength(rest, false).Some?
    ensures QuotedLength(EscapeChar(c) + rest, false) == Some(|EscapeChar(c)| + QuotedLength(rest, false).value)
  {
    var e := EscapeChar(c);
    if |e| == 1 {
      QuotedSkips(c, rest);
    } else if |e| == 2 {
      assert e == ['\\', e[1]];
      QuotedSkipsPair(e[1], rest);
    } else {
      var n := c as int;
      HexIsPlain(n / 0x1000);
      HexIsPlain(n / 0x100 % 0x10);
      HexIsPlain(n / 0x10 % 0x10);
      HexIsPlain(n % 0x10);
      QuotedSkipsHex(HexDigit(n / 0x1000), HexDigit(n / 0x100 % 0x10), HexDigit(n / 0x10 % 0x10), HexDigit(n % 0x10), rest);
    }
  }

  lemma {:induction false} QuotedLengthOf(s: string, rest: string)
    ensures QuotedLength(Escape(s) + "\"" + rest, false) == Some(|Escape(s)| + 1)
  {
    hide QuotedLength, EscapeChar;
    if s == "" {
      assert Escape(s) + "\"" + rest == "\"" + rest;
      ClosingQuote(rest);
    } else {
      QuotedLengthOf(s[1..], rest);
      var tail := Escape(s[1..]) + "\"" + rest;
      QuotedSkipsChar(s[0], tail);
      Regroup4(EscapeChar(s[0]), Escape(s[1..]), "\"", rest);
      Regroup3(Escape(s[1..]), "\"", rest);
    }
  }

  lemma {:induction false} ClosingQuote(rest: string)
    ensures QuotedLength("\"" + rest, false) == Some(1)
  {
  }

  lemma {:induction false} QuotedParses(s: string, rest: string)
    ensures ParseValue(Quote(s) + rest) == Ok(Parsed(Str(s), rest))
  {
    var input := Quote(s) + rest;
    QuotedLengthOf(s, rest);
    assert input[1..] == Escape(s) + "\"" + rest;
    assert input[..|Quote(s)|] == Quote(s) && input[|Quote(s)|..] == rest;
    UnquoteQuote(s);
  }

  lemma {:induction false} StringParses(s: string, rest: string)
    requires Follows(rest)
    ensures ParseValue(RenderString(s) + rest) == Ok(Parsed(Str(s), rest))
  {
    if SafeAtom(s) {
      AtomParses(s, rest);
    } else {
      QuotedParses(s, rest);
    }
  }

  lemma {:induction false} ScalarParses(v: Value, rest: string)
    requires IsScalar(v) && WellFormed(v) && Follows(rest)
    ensures Render(v).Some? && ParseValue(Render(v).value + rest) == Ok(Parsed(v, rest))
  {
    match v
    case Null => AtomParses("null", rest);
    case Bool(b) => AtomParses(if b then "true" else "false", rest);
    case Number(n) => NumberParses(n, rest);
    case Str(s) => StringParses(s, rest);
  }

  // ----- Keys -----

  lemma {:induction false} TerminatorAfterKey(key: string, terminators: set<char>, rest: string)
    requires forall i :: 0 <= i < |key| ==> IsKeyChar(key[i])
    requires terminators <= {':', ',', '|'} && rest != "" && rest[0] in terminators
    ensures FindTerminator(key + rest, terminators) == |key|
  {
    if key == "" {
      assert key + rest == rest;
    } else {
      assert (key + rest)[1..] == key[1..] + rest && (key + rest)[0] == key[0];
      TerminatorAfterKey(key[1..], terminators, rest);
    }
  }

  lemma {:induction false} KeyParses(key: string, terminators: set<char>, rest: string)
    requires SafeKey(key) && terminators <= {':', ',', '|'} && rest != "" && rest[0] in terminators
    ensures ParseKey(key + rest, terminators) == Ok(Parsed(key, rest))
  {
    TerminatorAfterKey(key, terminators, rest);
    assert (key + rest)[..|key|] == key && (key + rest)[|key|..] == rest;
  }

  lemma {:induction false} KeysParseStep(key: string, tail: string, before: seq<string>)
    requires SafeKey(key) && key !in before && (Starts(tail, ',') || Starts(tail, '|'))
    ensures ParseKeys(key + tail, before)
         == if Starts(tail, '|') then Ok(Parsed(before + [key], tail[1..])) else ParseKeys(tail[1..], before + [key])
  {
    KeyParses(key, {',', '|'}, tail);
  }

  lemma {:induction false} KeysParse(keys: seq<string>, before: seq<string>, rest: string)
    requires |keys| > 0 && AllSafe(keys) && Starts(rest, '|')
    requires forall i, j :: 0 <= i < j < |keys| ==> keys[i] != keys[j]
    requires forall i :: 0 <= i < |keys| ==> keys[i] !in before
    ensures ParseKeys(JoinKeys(keys) + rest, before) == Ok(Parsed(before + keys, rest[1..]))
  {
    var key, keys' := keys[0], keys[1..];
    if |keys| == 1 {
      KeysParseStep(key, rest, before);
      assert keys == [key];
    } else {
      var tail := "," + (JoinKeys(keys') + rest);
      Regroup4(key, ",", JoinKeys(keys'), rest);
      KeysParseStep(key, tail, before);
      assert tail[1..] == JoinKeys(keys') + rest;
      forall i | 0 <= i < |keys'| ensures keys'[i] !in before + [key] {
        assert keys'[i] == keys[i + 1];
      }
      KeysParse(keys', before + [key], rest);
      Regroup3(before, [key], keys');
      assert [key] + keys' == keys;
    }
  }

  // ----- Tables and lists -----

  /** Outside strings and brackets, plain characters do not matter to the search for a bar. */
  predicate PlainText(s: string) {
    forall i :: 0 <= i < |s| ==> s[i] !in {'"', '{', '[', '}', ']', '|'}
  }

  lemma {:induction false} PipeSkipsPlainAt(s: string, depth: nat, rest: string)
    requires PlainText(s)
    ensures PipeAt(s + rest, depth, false, false) == PipeAt(rest, depth, false, false)
  {
    if s == "" {
      assert s + rest == rest;
    } else {
      assert (s + rest)[1..] == s[1..] + rest && (s + rest)[0] == s[0] && s[0] !in {'"', '{', '[', '}', ']', '|'};
      PipeSkipsPlainAt(s[1..], depth, rest);
    }
  }

  lemma {:induction false} PipeSkipsPlain(s: string, rest: string)
    requires PlainText(s)
    ensures HasTopLevelPipe(s + rest) == HasTopLevelPipe(rest)
  {
    PipeSkipsPlainAt(s, 0, rest);
  }

  lemma {:induction false} PipeSkipsString(s: string, n: nat, depth: nat, escaped: bool)
    requires QuotedLength(s, escaped) == Some(n)
    ensures PipeAt(s, depth, true, escaped) == PipeAt(s[n..], depth, false, false)
  {
    if !escaped && s[0] == '"' {
    } else {
      PipeSkipsString(s[1..], n - 1, depth, !escaped && s[0] == '\\');
      assert s[1..][n - 1..] == s[n..];
    }
  }

  lemma {:induction false} PipeSkipsQuoted(s: string, rest: string)
    ensures HasTopLevelPipe(Quote(s) + rest) == HasTopLevelPipe(rest)
  {
    var input := Quote(s) + rest;
    QuotedLengthOf(s, rest);
    assert input[1..] == Escape(s) + "\"" + rest;
    PipeSkipsString(input[1..], |Escape(s)| + 1, 0, false);
    assert input[1..][|Escape(s)| + 1..] == rest;
  }

  lemma {:induction false} PipeSkipsScalar(v: Value, rest: string)
    requires IsScalar(v) && WellFormed(v)
    ensures Render(v).Some? && HasTopLevelPipe(Render(v).value + rest) == HasTopLevelPipe(rest)
  {
    match v
    case Null => PipeSkipsPlain("null", rest);
    case Bool(b) => PipeSkipsPlain(if b then "true" else "false", rest);
    case Number(n) =>
      NumberHasNumberChars(n);
      assert PlainText(n) by {
        forall i | 0 <= i < |n| ensures n[i] !in {'"', '{', '[', '}', ']', '|'} { assert IsNumberChar(n[i]); }
      }
      PipeSkipsPlain(n, rest);
    case Str(s) =>
      if SafeAtom(s) {
        PipeSkipsPlain(s, rest);
      } else {
        PipeSkipsQuoted(s, rest);
      }
  }

  /** A rendered list shows no bar. */
  lemma {:induction false} ListHasNoPipe(v: Value, i: nat, rest: string)
    requires v.Array? && WellFormed(v) && i < |v.items| && RenderItems(v, i).Some? && Starts(rest, ']')
    ensures !HasTopLevelPipe(RenderItems(v, i).value + rest)
    decreases |v.items| - i
  {
    PipeSkipsScalar(v.items[i], rest);
    if i + 1 < |v.items| {
      var item, tail := Render(v.items[i]).value, RenderItems(v, i + 1).value;
      ListHasNoPipe(v, i + 1, rest);
      PipeSkipsPlain(",", tail + rest);
      PipeSkipsScalar(v.items[i], "," + (tail + rest));
      assert RenderItems(v, i).value + rest == item + ("," + (tail + rest));
    }
  }

  lemma {:induction false} JoinedKeysArePlain(keys: seq<string>)
    requires AllSafe(keys)
    ensures PlainText(JoinKeys(keys))
  {
    if |keys| > 0 {
      assert forall i :: 0 <= i < |keys[0]| ==> IsKeyChar(keys[0][i]);
      JoinedKeysArePlain(keys[1..]);
    }
  }

  /** A rendered table shows a bar, right after its keys. */
  lemma {:induction false} TableHasPipe(keys: seq<string>, rest: string)
    requires AllSafe(keys) && Starts(rest, '|')
    ensures HasTopLevelPipe(JoinKeys(keys) + rest)
  {
    JoinedKeysArePlain(keys);
    PipeSkipsPlain(JoinKeys(keys), rest);
  }

  // ----- Objects, lists and tables -----

  /** The fields of v named by `keys`, added to `before`. */
  function AddFields(before: map<string, Value>, v: Value, keys: seq<string>): map<string, Value>
    requires v.Object? && forall k :: k in keys ==> k in v.fields
    decreases |keys|
  {
    if |keys| == 0 then before else AddFields(before[keys[0] := v.fields[keys[0]]], v, keys[1..])
  }

  lemma {:induction false} AddFieldsIs(before: map<string, Value>, v: Value, keys: seq<string>)
    requires v.Object? && forall k :: k in keys ==> k in v.fields
    ensures AddFields(before, v, keys).Keys == before.Keys + KeySet(keys)
    ensures forall k :: k in keys ==> AddFields(before, v, keys)[k] == v.fields[k]
    ensures forall k :: k in before && k !in keys ==> AddFields(before, v, keys)[k] == before[k]
    decreases |keys|
  {
    if |keys| > 0 {
      AddFieldsIs(before[keys[0] := v.fields[keys[0]]], v, keys[1..]);
      assert keys == [keys[0]] + keys[1..];
    }
  }

  /** Adding all its fields to nothing rebuilds the object. */
  lemma {:induction false} AddAllFields(v: Value, keys: seq<string>)
    requires v.Object? && KeySet(keys) == v.fields.Keys
    ensures forall k :: k in keys ==> k in v.fields
    ensures AddFields(map[], v, keys) == v.fields
  {
    assert forall k :: k in keys ==> k in KeySet(keys);
    AddFieldsIs(map[], v, keys);
    assert forall k :: k in v.fields ==> k in KeySet(keys);
  }

  lemma {:induction false} FieldStep(key: string, value: string, v: Value, tail: string, before: map<string, Value>)
    requires SafeKey(key) && key !in before && ParseValue(value + tail) == Ok(Parsed(v, tail))
    ensures ParseFields(key + (":" + (value + tail)), before)
         == var fields := before[key := v];
            if Starts(tail, '}') then Ok(Parsed(Object(fields), tail[1..]))
            else if Starts(tail, ';') then ParseFields(tail[1..], fields)
            else Err(ExpectedFieldEnd)
  {
    var rest := ":" + (value + tail);
    KeyParses(key, {':'}, rest);
    assert rest[1..] == value + tail;
  }

  lemma {:induction false} ItemStep(value: string, v: Value, tail: string, before: seq<Value>)
    requires ParseValue(value + tail) == Ok(Parsed(v, tail))
    ensures ParseItems(value + tail, before)
         == if Starts(tail, ']') then Ok(Parsed(Array(before + [v]), tail[1..]))
            else if Starts(tail, ',') then ParseItems(tail[1..], before + [v])
            else Err(ExpectedItemEnd)
  {
  }

  lemma {:induction false} CellStep(value: string, v: Value, tail: string, keys: seq<string>, before: map<string, Value>)
    requires |keys| > 0 && ParseValue(value + tail) == Ok(Parsed(v, tail))
    ensures ParseCells(value + tail, keys, before)
         == if |keys| == 1 then Ok(Parsed(before[keys[0] := v], tail))
            else if Starts(tail, ',') then ParseCells(tail[1..], keys[1..], before[keys[0] := v])
            else Err(TooFewColumns)
  {
  }

  lemma {:induction false} RowStep(cells: string, row: map<string, Value>, tail: string, keys: seq<string>, before: seq<Value>)
    requires |keys| > 0 && ParseCells(cells + tail, keys, map[]) == Ok(Parsed(row, tail))
    ensures ParseRows(cells + tail, keys, before)
         == if Starts(tail, ']') then Ok(Parsed(Array(before + [Object(row)]), tail[1..]))
            else if Starts(tail, '|') then ParseRows(tail[1..], keys, before + [Object(row)])
            else Err(ExpectedRowEnd)
  {
  }

  predicate Distinct(keys: seq<string>) {
    forall i, j :: 0 <= i < j < |keys| ==> keys[i] != keys[j]
  }

  lemma {:induction false} DistinctTail(keys: seq<string>)
    requires Distinct(keys) && |keys| > 0
    ensures Distinct(keys[1..]) && keys[0] !in keys[1..]
  {
  }

  lemma {:induction false} FieldsParse(v: Value, keys: seq<string>, before: map<string, Value>, rest: string)
    requires v.Object? && WellFormed(v) && (forall k :: k in keys ==> k in v.fields && k !in before)
    requires |keys| > 0 && AllSafe(keys) && Distinct(keys) && RenderFields(v, keys).Some?
    ensures ParseFields(RenderFields(v, keys).value + ("}" + rest), before)
         == Ok(Parsed(Object(AddFields(before, v, keys)), rest))
    decreases v, 0, |keys|
  {
    var key, keys' := keys[0], keys[1..];
    var value := Render(v.fields[key]).value;
    if |keys| == 1 {
      var tail := "}" + rest;
      ValueParses(v.fields[key], tail);
      FieldStep(key, value, v.fields[key], tail, before);
      Regroup4(key, ":", value, tail);
      assert tail[1..] == rest;
    } else {
      var more := RenderFields(v, keys').value + ("}" + rest);
      var tail := ";" + more;
      ValueParses(v.fields[key], tail);
      FieldStep(key, value, v.fields[key], tail, before);
      DistinctTail(keys);
      FieldsParse(v, keys', before[key := v.fields[key]], rest);
      assert tail[1..] == more;
      Regroup3((key + ":") + value, ";" + RenderFields(v, keys').value, "}" + rest);
      Regroup3(";", RenderFields(v, keys').value, "}" + rest);
      Regroup4(key, ":", value, tail);
    }
  }

  lemma {:induction false} ItemsParse(v: Value, i: nat, rest: string)
    requires v.Array? && WellFormed(v) && i < |v.items| && RenderItems(v, i).Some?
    ensures ParseItems(RenderItems(v, i).value + ("]" + rest), v.items[..i]) == Ok(Parsed(v, rest))
    decreases |v.items| - i
  {
    hide ParseItems, Render, ParseValue;
    var item := v.items[i];
    var value := Render(item).value;
    TakeMore(v.items, i);
    if i + 1 == |v.items| {
      var tail := "]" + rest;
      ScalarParses(item, tail);
      ItemStep(value, item, tail, v.items[..i]);
      assert tail[1..] == rest && v.items[..i + 1] == v.items;
    } else {
      var more := RenderItems(v, i + 1).value + ("]" + rest);
      var tail := "," + more;
      ScalarParses(item, tail);
      ItemStep(value, item, tail, v.items[..i]);
      ItemsParse(v, i + 1, rest);
      assert tail[1..] == more;
      assert RenderItems(v, i).value + ("]" + rest) == value + tail;
    }
  }

  lemma {:induction false} CellsParse(row: Value, keys: seq<string>, before: map<string, Value>, rest: string)
    requires row.Object? && WellFormed(row) && (forall k :: k in keys ==> k in row.fields)
    requires |keys| > 0 && Distinct(keys) && RenderCells(row, keys).Some? && Follows(rest)
    ensures ParseCells(RenderCells(row, keys).value + rest, keys, before) == Ok(Parsed(AddFields(before, row, keys), rest))
    decreases row, 0, |keys|
  {
    var key, keys' := keys[0], keys[1..];
    var value := Render(row.fields[key]).value;
    if |keys| == 1 {
      ValueParses(row.fields[key], rest);
      CellStep(value, row.fields[key], rest, keys, before);
    } else {
      var more := RenderCells(row, keys').value + rest;
      var tail := "," + more;
      ValueParses(row.fields[key], tail);
      CellStep(value, row.fields[key], tail, keys, before);
      DistinctTail(keys);
      CellsParse(row, keys', before[key := row.fields[key]], rest);
      Unwrap(',', more);
      Regroup3(value, "," + RenderCells(row, keys').value, rest);
      Regroup3(",", RenderCells(row, keys').value, rest);
    }
  }

  lemma {:induction false} RowsText(v: Value, keys: seq<string>, i: nat, close: string)
    requires v.Array? && i < |v.items| && Ascending(keys) && RenderRows(v, keys, i).Some?
    ensures var row := v.items[i];
            && row.Object? && KeySet(keys) == row.fields.Keys
            && RenderCells(row, keys).Some? && RenderRows(v, keys, i + 1).Some?
            && RenderRows(v, keys, i).value + close
            == "|" + (RenderCells(row, keys).value + (RenderRows(v, keys, i + 1).value + close))
  {
    Regroup4("|", RenderCells(v.items[i], keys).value, RenderRows(v, keys, i + 1).value, close);
    Regroup3("|", RenderCells(v.items[i], keys).value, RenderRows(v, keys, i + 1).value);
  }

  lemma {:induction false} RowParses(row: Value, keys: seq<string>, more: string)
    requires row.Object? && WellFormed(row) && Ascending(keys) && |keys| > 0 && KeySet(keys) == row.fields.Keys
    requires RenderCells(row, keys).Some? && Follows(more)
    ensures ParseCells(RenderCells(row, keys).value + more, keys, map[]) == Ok(Parsed(row.fields, more))
    decreases row, 3
  {
    AddAllFields(row, keys);
    AscendingIsDistinct(keys);
    CellsParse(row, keys, map[], more);
  }

  lemma {:induction false} RowsParse(v: Value, keys: seq<string>, i: nat, rest: string)
    requires v.Array? && WellFormed(v) && i < |v.items| && Ascending(keys) && |keys| > 0
    requires RenderRows(v, keys, i).Some?
    ensures Starts(RenderRows(v, keys, i).value + ("]" + rest), '|')
    ensures ParseRows((RenderRows(v, keys, i).value + ("]" + rest))[1..], keys, v.items[..i]) == Ok(Parsed(v, rest))
    decreases v, 0, |v.items| - i
  {
    var row := v.items[i];
    RowsText(v, keys, i, "]" + rest);
    var cells := RenderCells(row, keys).value;
    var more := RenderRows(v, keys, i + 1).value + ("]" + rest);
    Unwrap('|', cells + more);
    if i + 1 == |v.items| {
      EmptyConcat(RenderRows(v, keys, i + 1).value, "]" + rest);
      Unwrap(']', rest);
      assert v.items[..i + 1] == v.items;
    } else {
      RowsParse(v, keys, i + 1, rest);
    }
    TakeMore(v.items, i);
    RowParses(row, keys, more);
    RowStep(cells, row.fields, more, keys, v.items[..i]);
  }

  lemma {:induction false} NonEmptyKeys(fields: map<string, Value>)
    requires |fields| > 0
    ensures |SortedKeys(fields.Keys)| > 0
  {
    var key :| key in fields;
    assert key in KeySet(SortedKeys(fields.Keys));
  }

  lemma {:induction false} ObjectParses(v: Value, rest: string)
    requires v.Object? && WellFormed(v) && Render(v).Some?
    ensures ParseValue(Render(v).value + rest) == Ok(Parsed(v, rest))
    decreases v, 1
  {
    var keys := SortedKeys(v.fields.Keys);
    var body := RenderFields(v, keys).value;
    NonEmptyKeys(v.fields);
    AddAllFields(v, keys);
    AscendingIsDistinct(keys);
    FieldsParse(v, keys, map[], rest);
    var tail := body + ("}" + rest);
    Regroup4("{", body, "}", rest);
    Regroup3("{", body, "}");
    assert body[0] == keys[0][0] && IsKeyStart(keys[0][0]);
    Unwrap('{', tail);
  }

  lemma {:induction false} ValueParses(v: Value, rest: string)
    requires WellFormed(v) && Render(v).Some? && Follows(rest)
    ensures ParseValue(Render(v).value + rest) == Ok(Parsed(v, rest))
    decreases v, 2
  {
    match v
    case Object(_) => ObjectParses(v, rest);
    case Array(items) => if items[0].Object? { TableParses(v, rest); } else { ListParses(v, rest); }
    case _ => ScalarParses(v, rest);
  }

  lemma {:induction false} ListParses(v: Value, rest: string)
    requires v.Array? && WellFormed(v) && Render(v).Some? && !v.items[0].Object?
    ensures ParseValue(Render(v).value + rest) == Ok(Parsed(v, rest))
  {
    var body := RenderItems(v, 0).value;
    var input := Render(v).value + rest;
    assert input == "[" + (body + ("]" + rest)) && input[1..] == body + ("]" + rest);
    ListHasNoPipe(v, 0, "]" + rest);
    ItemsParse(v, 0, rest);
    ScalarDoesNotClose(v.items[0]);
    assert body[0] == Render(v.items[0]).value[0];
    assert v.items[..0] == [];
  }

  lemma {:induction false} ScalarDoesNotClose(v: Value)
    requires IsScalar(v) && WellFormed(v)
    ensures Render(v).Some? && Render(v).value != "" && Render(v).value[0] != ']'
  {
    if v.Number? {
      NumberHasNumberChars(v.literal);
      assert IsNumberChar(v.literal[0]);
    }
  }

  lemma {:induction false} TableText(keys: string, rows: string, rest: string)
    ensures (("[" + keys) + (rows + "]")) + rest == "[" + (keys + (rows + ("]" + rest)))
  {
    Regroup4("[", keys, rows + "]", rest);
    Regroup3(rows, "]", rest);
  }

  lemma {:induction false} Unwrap(open: char, tail: string)
    ensures ([open] + tail)[0] == open && ([open] + tail)[1..] == tail
  {
  }

  lemma {:induction false} TableBodyParses(v: Value, keys: seq<string>, rest: string)
    requires v.Array? && |v.items| > 0 && WellFormed(v) && Ascending(keys) && |keys| > 0 && AllSafe(keys)
    requires RenderRows(v, keys, 0).Some?
    ensures var rows := RenderRows(v, keys, 0).value + ("]" + rest);
            Starts(rows, '|') && ParseTable(JoinKeys(keys) + rows) == Ok(Parsed(v, rest))
    decreases v, 0, |v.items| + 1
  {
    var rows := RenderRows(v, keys, 0).value + ("]" + rest);
    RowsParse(v, keys, 0, rest);
    AscendingIsDistinct(keys);
    KeysParse(keys, [], rows);
    assert [] + keys == keys && v.items[..0] == [];
  }

  lemma {:induction false} TableParses(v: Value, rest: string)
    requires v.Array? && WellFormed(v) && Render(v).Some? && v.items[0].Object?
    ensures ParseValue(Render(v).value + rest) == Ok(Parsed(v, rest))
    decreases v, 1
  {
    var keys := SortedKeys(v.items[0].fields.Keys);
    var rows := RenderRows(v, keys, 0).value + ("]" + rest);
    NonEmptyKeys(v.items[0].fields);
    TableBodyParses(v, keys, rest);
    TableHasPipe(keys, rows);
    TableText(JoinKeys(keys), RenderRows(v, keys, 0).value, rest);
    assert (JoinKeys(keys) + rows)[0] == keys[0][0] && IsKeyStart(keys[0][0]);
    Unwrap('[', JoinKeys(keys) + rows);
  }
}
