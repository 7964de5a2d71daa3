/**
 The parser of internal/terse/decode.go in its own form: an object with an index that every method advances.
 Each method is proved to compute the function of the same name in TerseDecode on the input it finds unread.
 */
module TerseParser {
  import opened Text
  import opened JsonString
  import opened TerseEncode
  import opened TerseDecode

  function Shifted(k: nat, n: Option<nat>): Option<nat> {
    if n.None? then None else Some(k + n.value)
  }

  lemma {:induction false} TerminatorAt(s: string, i: nat, terminators: set<char>)
    requires i <= |s|
    ensures FindTerminator(s[i..], terminators)
         == if i == |s| || s[i] in terminators then 0 else 1 + FindTerminator(s[i + 1..], terminators)
  {
    assert i < |s| ==> s[i..][0] == s[i] && s[i..][1..] == s[i + 1..];
  }

  lemma {:induction false} QuotedAt(s: string, i: nat, escaped: bool)
    requires i <= |s|
    ensures QuotedLength(s[i..], escaped)
         == if i == |s| then None
            else if !escaped && s[i] == '"' then Some(1)
            else Shifted(1, QuotedLength(s[i + 1..], !escaped && s[i] == '\\'))
  {
    assert i < |s| ==> s[i..][0] == s[i] && s[i..][1..] == s[i + 1..];
  }

  lemma {:induction false} AtomAt(s: string, i: nat)
    requires i <= |s|
    ensures AtomLength(s[i..])
         == if i == |s| || IsDelimiter(s[i]) then Some(0)
            else if IsSpace(s[i]) || IsControl(s[i]) then None
            else Shifted(1, AtomLength(s[i + 1..]))
  {
    assert i < |s| ==> s[i..][0] == s[i] && s[i..][1..] == s[i + 1..];
  }

  /** One turn of the loop over the keys of a table. */
  lemma {:induction false} KeysTurn(s: string, keys: seq<string>)
    ensures var key := ParseKey(s, {',', '|'});
            ParseKeys(s, keys)
            == if key.Err? then Err(key.error)
               else if key.value.value in keys then Err(DuplicateKey(key.value.value))
               else if Starts(key.value.rest, '|') then Ok(Parsed(keys + [key.value.value], key.value.rest[1..]))
               else ParseKeys(key.value.rest[1..], keys + [key.value.value])
  {
  }

  lemma {:induction false} SafeKeyIsNotEmpty(key: string)
    ensures SafeKey(key) ==> |key| > 0
  {
  }

  class Parser {
    const data: string
    var index: nat

    constructor (data: string)
      ensures this.data == data && index == 0
    {
      this.data := data;
      index := 0;
    }

    predicate Valid()
      reads this
    {
      index <= |data|
    }

    function Unread(): string
      reads this
      requires Valid()
    {
      data[index..]
    }

    /** The method returned what `expected` says, and left unread what it says. */
    predicate Yields<T(==)>(expected: Result<Parsed<T>, Error>, r: Result<T, Error>)
      reads this
    {
      && Valid()
      && match expected
         case Err(e) => r == Err(e)
         case Ok(p) => r == Ok(p.value) && Unread() == p.rest
    }

    method Take(want: char) returns (taken: bool)
      requires Valid()
      modifies this
      ensures Valid() && taken == Starts(old(Unread()), want)
      ensures index == old(index) + (if taken then 1 else 0)
      ensures Unread() == if taken then old(Unread())[1..] else old(Unread())
    {
      if index >= |data| || data[index] != want {
        return false;
      }
      index := index + 1;
      return true;
    }

    lemma {:induction false} Advance(i: nat)
      requires i < |data|
      ensures data[i..][0] == data[i] && data[i..][1..] == data[i + 1..]
    {
    }

    lemma {:induction false} Scanned(start: nat)
      requires start <= index <= |data|
      ensures data[start..index] == data[start..][..index - start] && data[start..][index - start..] == data[index..]
    {
    }

    method Key(terminators: set<char>) returns (r: Result<string, Error>)
      requires Valid()
      modifies this
      ensures Yields(ParseKey(old(Unread()), terminators), r)
      ensures r.Ok? ==> old(index) < index < |data| && data[index] in terminators
    {
      hide SafeKey, FindTerminator;
      var start := index;
      while index < |data| && data[index] !in terminators
        invariant start <= index <= |data|
        invariant FindTerminator(data[start..], terminators) == index - start + FindTerminator(data[index..], terminators)
      {
        TerminatorAt(data, index, terminators);
        index := index + 1;
      }
      TerminatorAt(data, index, terminators);
      if index == |data| {
        return Err(UnexpectedEof);
      }
      Scanned(start);
      SafeKeyIsNotEmpty(data[start..index]);
      if !SafeKey(data[start..index]) {
        return Err(UnsafeKey(data[start..index]));
      }
      return Ok(data[start..index]);
    }

    method QuotedString() returns (r: Result<Value, Error>)
      requires Valid() && Starts(Unread(), '"')
      modifies this
      ensures Yields(ParseQuoted(old(Unread())), r) && (r.Ok? ==> old(index) < index)
    {
      hide Unquote, QuotedLength;
      var start := index;
      index := index + 1;
      var escaped := false;
      Advance(start);
      while index < |data|
        invariant start < index <= |data|
        invariant QuotedLength(data[start + 1..], false) == Shifted(index - start - 1, QuotedLength(data[index..], escaped))
      {
        var current := data[index];
        QuotedAt(data, index, escaped);
        index := index + 1;
        if escaped {
          escaped := false;
        } else if current == '\\' {
          escaped := true;
        } else if current == '"' {
          Scanned(start);
          var text := Unquote(data[start..index]);
          return if text.None? then Err(BadString) else Ok(Str(text.value));
        }
      }
      QuotedAt(data, index, escaped);
      return Err(UnexpectedEof);
    }

    method Atom() returns (r: Result<Value, Error>)
      requires Valid()
      modifies this
      ensures Yields(ParseAtom(old(Unread())), r) && (r.Ok? ==> old(index) < index)
    {
      hide AtomValue, AtomLength, IsSpace, IsControl, IsDelimiter;
      var start := index;
      while index < |data| && !IsDelimiter(data[index])
        invariant start <= index <= |data|
        invariant AtomLength(data[start..]) == Shifted(index - start, AtomLength(data[index..]))
      {
        AtomAt(data, index);
        if IsSpace(data[index]) || IsControl(data[index]) {
          return Err(UnquotedSpace);
        }
        index := index + 1;
      }
      AtomAt(data, index);
      Scanned(start);
      if start == index {
        return Err(EmptyValue);
      }
      return Ok(AtomValue(data[start..index]));
    }

    method TopLevelPipe() returns (found: bool)
      requires Valid()
      ensures found == HasTopLevelPipe(Unread())
    {
      var depth, inString, escaped := 0, false, false;
      var i := index;
      while i < |data|
        invariant index <= i <= |data| && 0 <= depth && (escaped ==> inString)
        invariant PipeAt(data[i..], depth, inString, escaped) == HasTopLevelPipe(Unread())
      {
        var current := data[i];
        assert data[i..][0] == current && data[i..][1..] == data[i + 1..];
        i := i + 1;
        if inString {
          if escaped {
            escaped := false;
          } else if current == '\\' {
            escaped := true;
          } else if current == '"' {
            inString := false;
          }
        } else {
          match current
          case '"' => inString := true;
          case '{' => depth := depth + 1;
          case '[' => depth := depth + 1;
          case '}' => if depth > 0 { depth := depth - 1; }
          case ']' =>
            if depth == 0 {
              return false;
            }
            depth := depth - 1;
          case '|' =>
            if depth == 0 {
              return true;
            }
          case _ =>
        }
      }
      return false;
    }

    method Val() returns (r: Result<Value, Error>)
      requires Valid()
      modifies this
      ensures Yields(ParseValue(old(Unread())), r) && (r.Ok? ==> old(index) < index)
      decreases |data| - index, 1
    {
      if index >= |data| {
        return Err(UnexpectedEof);
      }
      match data[index]
      case '{' => r := Obj();
      case '[' => r := Arr();
      case '"' => r := QuotedString();
      case _ => r := Atom();
    }

    method Obj() returns (r: Result<Value, Error>)
      requires Valid() && Starts(Unread(), '{')
      modifies this
      ensures Yields(ParseValue(old(Unread())), r) && (r.Ok? ==> old(index) < index)
      decreases |data| - index, 0
    {
      var start := index;
      index := index + 1;
      ghost var inside := Unread();
      var closed := Take('}');
      if closed {
        return Err(EmptyObject);
      }
      var result: map<string, Value> := map[];
      while true
        invariant Valid() && start < index
        invariant ParseFields(Unread(), result) == ParseFields(inside, map[])
        decreases |data| - index
      {
        var key := Key({':'});
        if key.Err? {
          return Err(key.error);
        }
        if key.value in result {
          return Err(DuplicateKey(key.value));
        }
        var colon := Take(':');
        var value := Val();
        if value.Err? {
          return Err(value.error);
        }
        result := result[key.value := value.value];
        var done := Take('}');
        if done {
          return Ok(Object(result));
        }
        var more := Take(';');
        if !more {
          return Err(ExpectedFieldEnd);
        }
      }
    }

    method Arr() returns (r: Result<Value, Error>)
      requires Valid() && Starts(Unread(), '[')
      modifies this
      ensures Yields(ParseValue(old(Unread())), r) && (r.Ok? ==> old(index) < index)
      decreases |data| - index, 0
    {
      var start := index;
      index := index + 1;
      ghost var inside := Unread();
      var closed := Take(']');
      if closed {
        return Err(EmptyArray);
      }
      var table := TopLevelPipe();
      if table {
        r := Table();
        return;
      }
      var result: seq<Value> := [];
      while true
        invariant Valid() && start < index
        invariant ParseItems(Unread(), result) == ParseItems(inside, [])
        decreases |data| - index
      {
        var value := Val();
        if value.Err? {
          return Err(value.error);
        }
        result := result + [value.value];
        var done := Take(']');
        if done {
          return Ok(Array(result));
        }
        var more := Take(',');
        if !more {
          return Err(ExpectedItemEnd);
        }
      }
    }

    method Table() returns (r: Result<Value, Error>)
      requires Valid()
      modifies this
      ensures Yields(ParseTable(old(Unread())), r) && (r.Ok? ==> old(index) < index)
      decreases |data| - index, 4
    {
      var keys := TableKeys();
      if keys.Err? {
        return Err(keys.error);
      }
      ghost var body := Unread();
      var rows: seq<Value> := [];
      while true
        invariant Valid() && old(index) < index
        invariant ParseRows(Unread(), keys.value, rows) == ParseRows(body, keys.value, [])
        decreases |data| - index
      {
        var row := Row(keys.value);
        if row.Err? {
          return Err(row.error);
        }
        rows := rows + [Object(row.value)];
        var done := Take(']');
        if done {
          return Ok(Array(rows));
        }
        var more := Take('|');
        if !more {
          return Err(ExpectedRowEnd);
        }
      }
    }

    method TableKeys() returns (r: Result<seq<string>, Error>)
      requires Valid()
      modifies this
      ensures Yields(ParseKeys(old(Unread()), []), r) && (r.Ok? ==> old(index) < index && |r.value| > 0)
    {
      hide ParseKeys;
      var keys: seq<string> := [];
      ghost var unread := Unread();
      while true
        invariant Valid() && old(index) <= index
        invariant ParseKeys(Unread(), keys) == ParseKeys(unread, [])
        decreases |data| - index
      {
        KeysTurn(Unread(), keys);
        var key := Key({',', '|'});
        if key.Err? {
          return Err(key.error);
        }
        if key.value in keys {
          return Err(DuplicateKey(key.value));
        }
        keys := keys + [key.value];
        var done := Take('|');
        if done {
          return Ok(keys);
        }
        var more := Take(',');
      }
    }

    method Row(keys: seq<string>) returns (r: Result<map<string, Value>, Error>)
      requires Valid() && |keys| > 0
      modifies this
      ensures Yields(ParseCells(old(Unread()), keys, map[]), r) && (r.Ok? ==> old(index) < index)
      decreases |data| - index, 2
    {
      var row: map<string, Value> := map[];
      ghost var unread := Unread();
      var column := 0;
      while true
        invariant Valid() && old(index) <= index && 0 <= column < |keys| && (column > 0 ==> old(index) < index)
        invariant ParseCells(Unread(), keys[column..], row) == ParseCells(unread, keys, map[])
        decreases |keys| - column
      {
        var value := Val();
        if value.Err? {
          return Err(value.error);
        }
        row := row[keys[column] := value.value];
        if column + 1 == |keys| {
          return Ok(row);
        }
        var more := Take(',');
        if !more {
          return Err(TooFewColumns);
        }
        column := column + 1;
      }
    }
  }

  /** Decode. */
  method DecodeDocument(data: string) returns (r: Result<Value, Error>)
    ensures r == Decode(data)
  {
    var p := new Parser(data);
    var tilde := p.Take('~');
    if !tilde {
      return Err(MissingTilde);
    }
    r := p.Val();
    if r.Ok? && p.index != |data| {
      return Err(TrailingData);
    }
  }
}
