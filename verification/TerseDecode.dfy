/**
 The parser of the terse codec, internal/terse/decode.go, as functions from the unread input to a value and the
 input left after it.

 Positions and the nesting text of the source's error messages are left out.  The contracts say that reading leaves
 less input than there was, which is why the mutual recursion of values, tables, arrays and objects ends.
 */
module TerseDecode {
  import opened Text
  import opened JsonString
  import opened TerseEncode

  datatype Error =
    | MissingTilde
    | TrailingData
    | UnexpectedEof
    | EmptyObject
    | EmptyArray
    | DuplicateKey(key: string)
    | UnsafeKey(key: string)
    | ExpectedFieldEnd
    | ExpectedItemEnd
    | TooFewColumns
    | ExpectedRowEnd
    | BadString
    | UnquotedSpace
    | EmptyValue

  datatype Parsed<+T> = Parsed(value: T, rest: string)

  predicate Starts(s: string, c: char) {
    s != "" && s[0] == c
  }

  // ----- Keys -----

  /** The index of the first terminator, or the length. */
  function FindTerminator(s: string, terminators: set<char>): (n: nat)
    ensures n <= |s| && (n < |s| ==> s[n] in terminators)
  {
    if s == "" || s[0] in terminators then 0 else 1 + FindTerminator(s[1..], terminators)
  }

  function ParseKey(s: string, terminators: set<char>): (r: Result<Parsed<string>, Error>)
    ensures r.Ok? ==> r.value.rest != "" && r.value.rest[0] in terminators && |r.value.rest| < |s|
  {
    var n := FindTerminator(s, terminators);
    if n == |s| then Err(UnexpectedEof)
    else if !SafeKey(s[..n]) then Err(UnsafeKey(s[..n]))
    else Ok(Parsed(s[..n], s[n..]))
  }

  // ----- Strings and atoms -----

  /** How much of s, the inside of a string literal and what follows, the literal takes; None when it has no end. */
  function QuotedLength(s: string, escaped: bool): (n: Option<nat>)
    ensures n.Some? ==> 0 < n.value <= |s|
  {
    if s == "" then None
    else if !escaped && s[0] == '"' then Some(1)
    else
      var rest := QuotedLength(s[1..], !escaped && s[0] == '\\');
      if rest.None? then None else Some(1 + rest.value)
  }

  function ParseQuoted(s: string): (r: Result<Parsed<Value>, Error>)
    requires Starts(s, '"')
    ensures r.Ok? ==> |r.value.rest| < |s|
  {
    var n := QuotedLength(s[1..], false);
    if n.None? then Err(UnexpectedEof)
    else
      var text := Unquote(s[..1 + n.value]);
      if text.None? then Err(BadString) else Ok(Parsed(Str(text.value), s[1 + n.value..]))
  }

  /** The length of the atom at the front of s; None when a space or control character stands in it. */
  function AtomLength(s: string): (n: Option<nat>)
    ensures n.Some? ==> n.value <= |s|
  {
    if s == "" || IsDelimiter(s[0]) then Some(0)
    else if IsSpace(s[0]) || IsControl(s[0]) then None
    else
      var rest := AtomLength(s[1..]);
      if rest.None? then None else Some(1 + rest.value)
  }

  function AtomValue(atom: string): Value {
    if atom == "null" then Null
    else if atom == "true" then Bool(true)
    else if atom == "false" then Bool(false)
    else
      var number := ParseNumber(atom);
      if number.Some? then Number(number.value) else Str(atom)
  }

  function ParseAtom(s: string): (r: Result<Parsed<Value>, Error>)
    ensures r.Ok? ==> |r.value.rest| < |s|
  {
    var n := AtomLength(s);
    if n.None? then Err(UnquotedSpace)
    else if n.value == 0 then Err(EmptyValue)
    else Ok(Parsed(AtomValue(s[..n.value]), s[n.value..]))
  }

  // ----- Telling tables from lists -----

  /** hasTopLevelPipe, from a point `depth` brackets deep, perhaps inside a string. */
  function PipeAt(s: string, depth: nat, inString: bool, escaped: bool): bool {
    if s == "" then false
    else if inString then
      PipeAt(s[1..], depth, escaped || s[0] != '"', !escaped && s[0] == '\\')
    else
      match s[0]
      case '"' => PipeAt(s[1..], depth, true, false)
      case '{' => PipeAt(s[1..], depth + 1, false, false)
      case '[' => PipeAt(s[1..], depth + 1, false, false)
      case '}' => PipeAt(s[1..], if depth > 0 then depth - 1 else 0, false, false)
      case ']' => depth > 0 && PipeAt(s[1..], depth - 1, false, false)
      case '|' => depth == 0 || PipeAt(s[1..], depth, false, false)
      case _ => PipeAt(s[1..], depth, false, false)
  }

  predicate HasTopLevelPipe(s: string) {
    PipeAt(s, 0, false, false)
  }

  // ----- Values -----

  function ParseValue(s: string): (r: Result<Parsed<Value>, Error>)
    ensures r.Ok? ==> |r.value.rest| < |s|
    decreases |s|, 1
  {
    if s == "" then Err(UnexpectedEof)
    else if s[0] == '{' then
      if Starts(s[1..], '}') then Err(EmptyObject) else ParseFields(s[1..], map[])
    else if s[0] == '[' then
      if Starts(s[1..], ']') then Err(EmptyArray)
      else if HasTopLevelPipe(s[1..]) then ParseTable(s[1..])
      else ParseItems(s[1..], [])
    else if s[0] == '"' then ParseQuoted(s)
    else ParseAtom(s)
  }

  /** The fields of an object from a key on, after those in `fields`. */
  function ParseFields(s: string, fields: map<string, Value>): (r: Result<Parsed<Value>, Error>)
    ensures r.Ok? ==> |r.value.rest| < |s|
    decreases |s|, 2
  {
    match ParseKey(s, {':'})
    case Err(e) => Err(e)
    case Ok(key) =>
      if key.value in fields then Err(DuplicateKey(key.value))
      else
        match ParseValue(key.rest[1..])
        case Err(e) => Err(e)
        case Ok(v) =>
          var fields' := fields[key.value := v.value];
          if Starts(v.rest, '}') then Ok(Parsed(Object(fields'), v.rest[1..]))
          else if Starts(v.rest, ';') then ParseFields(v.rest[1..], fields')
          else Err(ExpectedFieldEnd)
  }

  /** The items of a list from a value on, after those in `items`. */
  function ParseItems(s: string, items: seq<Value>): (r: Result<Parsed<Value>, Error>)
    ensures r.Ok? ==> |r.value.rest| < |s|
    decreases |s|, 2
  {
    match ParseValue(s)
    case Err(e) => Err(e)
    case Ok(v) =>
      var items' := items + [v.value];
      if Starts(v.rest, ']') then Ok(Parsed(Array(items'), v.rest[1..]))
      else if Starts(v.rest, ',') then ParseItems(v.rest[1..], items')
      else Err(ExpectedItemEnd)
  }

  /** The keys of a table from a key on, after those in `keys`, and the bar that ends them. */
  function ParseKeys(s: string, keys: seq<string>): (r: Result<Parsed<seq<string>>, Error>)
    ensures r.Ok? ==> |r.value.rest| < |s| && |r.value.value| > 0
    decreases |s|
  {
    match ParseKey(s, {',', '|'})
    case Err(e) => Err(e)
    case Ok(key) =>
      if key.value in keys then Err(DuplicateKey(key.value))
      else
        var keys' := keys + [key.value];
        if Starts(key.rest, '|') then Ok(Parsed(keys', key.rest[1..])) else ParseKeys(key.rest[1..], keys')
  }

  /** The cells of a row for `keys`, after those in `row`. */
  function ParseCells(s: string, keys: seq<string>, row: map<string, Value>): (r: Result<Parsed<map<string, Value>>, Error>)
    requires |keys| > 0
    ensures r.Ok? ==> |r.value.rest| < |s|
    decreases |s|, 2
  {
    match ParseValue(s)
    case Err(e) => Err(e)
    case Ok(v) =>
      var row' := row[keys[0] := v.value];
      if |keys| == 1 then Ok(Parsed(row', v.rest))
      else if Starts(v.rest, ',') then ParseCells(v.rest[1..], keys[1..], row')
      else Err(TooFewColumns)
  }

  /** The rows of a table from a cell on, after those in `rows`. */
  function ParseRows(s: string, keys: seq<string>, rows: seq<Value>): (r: Result<Parsed<Value>, Error>)
    requires |keys| > 0
    ensures r.Ok? ==> |r.value.rest| < |s|
    decreases |s|, 3
  {
    match ParseCells(s, keys, map[])
    case Err(e) => Err(e)
    case Ok(row) =>
      var rows' := rows + [Object(row.value)];
      if Starts(row.rest, ']') then Ok(Parsed(Array(rows'), row.rest[1..]))
      else if Starts(row.rest, '|') then ParseRows(row.rest[1..], keys, rows')
      else Err(ExpectedRowEnd)
  }

  function ParseTable(s: string): (r: Result<Parsed<Value>, Error>)
    ensures r.Ok? ==> |r.value.rest| < |s|
    decreases |s|, 4
  {
    match ParseKeys(s, [])
    case Err(e) => Err(e)
    case Ok(keys) => ParseRows(keys.rest, keys.value, [])
  }

  /** Decode of a whole document. */
  function Decode(data: string): Result<Value, Error> {
    if !Starts(data, '~') then Err(MissingTilde)
    else
      match ParseValue(data[1..])
      case Err(e) => Err(e)
      case Ok(v) => if v.rest == "" then Ok(v.value) else Err(TrailingData)
  }
}
