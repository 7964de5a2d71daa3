/**
 The printer of the terse codec, internal/terse/encode.go: which JSON values it accepts, and the text it gives
 each.  A `char` is a Unicode code point; JSON documents decode to nothing else.
 */
module TerseEncode {
  import opened Text
  import opened JsonString
  import opened KeyOrder

  /** A decoded JSON document, numbers kept as their literals. */
  datatype Value =
    | Null
    | Bool(b: bool)
    | Number(literal: string)
    | Str(text: string)
    | Object(fields: map<string, Value>)
    | Array(items: seq<Value>)

  /** What decoding a JSON document guarantees: number values hold number literals. */
  ghost predicate WellFormed(v: Value) {
    match v
    case Number(n) => IsNumber(n)
    case Object(fields) => forall k :: k in fields ==> WellFormed(fields[k])
    case Array(items) => forall i :: 0 <= i < |items| ==> WellFormed(items[i])
    case _ => true
  }

  predicate IsScalar(v: Value) {
    !v.Object? && !v.Array?
  }

  // ----- Characters -----

  predicate IsDelimiter(c: char) {
    c == ',' || c == ';' || c == ':' || c == '{' || c == '}' || c == '[' || c == ']' || c == '|'
  }

  /** unicode.IsControl. */
  predicate IsControl(c: char) {
    c <= '\U{1F}' || '\U{7F}' <= c <= '\U{9F}'
  }

  predicate IsKeyStart(c: char) {
    'a' <= c <= 'z' || 'A' <= c <= 'Z' || c == '_'
  }

  predicate IsKeyChar(c: char) {
    IsKeyStart(c) || '0' <= c <= '9' || c == '-' || c == '.'
  }

  predicate SafeKey(key: string) {
    key != "" && IsKeyStart(key[0]) && forall i :: 0 <= i < |key| ==> IsKeyChar(key[i])
  }

  predicate IsAtomChar(c: char) {
    !IsSpace(c) && !IsControl(c) && !IsDelimiter(c)
  }

  predicate SafeAtom(s: string) {
    && s != "" && s != "null" && s != "true" && s != "false"
    && ParseNumber(s).None?
    && forall i :: 0 <= i < |s| ==> IsAtomChar(s[i]) && s[i] != '"' && s[i] != '\\'
  }

  // ----- Rendering -----

  function RenderString(s: string): string {
    if SafeAtom(s) then s else Quote(s)
  }

  predicate AllSafe(keys: seq<string>) {
    forall i :: 0 <= i < |keys| ==> SafeKey(keys[i])
  }

  function JoinKeys(keys: seq<string>): string {
    if |keys| == 0 then ""
    else if |keys| == 1 then keys[0]
    else keys[0] + "," + JoinKeys(keys[1..])
  }

  function Concat(a: Option<string>, b: Option<string>): Option<string> {
    if a.None? || b.None? then None else Some(a.value + b.value)
  }

  /** renderValue; None where it reports failure. */
  ghost function Render(v: Value): Option<string>
    decreases v, 2, 0
  {
    match v
    case Null => Some("null")
    case Bool(b) => Some(if b then "true" else "false")
    case Number(n) => Some(n)
    case Str(s) => Some(RenderString(s))
    case Object(fields) =>
      var keys := SortedKeys(fields.Keys);
      if |fields| == 0 || !AllSafe(keys) then None
      else Concat(Some("{"), Concat(RenderFields(v, keys), Some("}")))
    case Array(items) =>
      if |items| == 0 then None
      else if items[0].Object? then RenderTable(v)
      else Concat(Some("["), Concat(RenderItems(v, 0), Some("]")))
  }

  /** `key:value` for each key, separated by semicolons. */
  ghost function RenderFields(v: Value, keys: seq<string>): Option<string>
    requires v.Object? && forall k :: k in keys ==> k in v.fields
    decreases v, 0, |keys|
  {
    if |keys| == 0 then Some("")
    else
      var first := Concat(Some(keys[0] + ":"), Render(v.fields[keys[0]]));
      if |keys| == 1 then first else Concat(first, Concat(Some(";"), RenderFields(v, keys[1..])))
  }

  /** The scalars items[i..], separated by commas. */
  ghost function RenderItems(v: Value, i: nat): Option<string>
    requires v.Array? && i < |v.items|
    decreases v, 0, |v.items| - i
  {
    if !IsScalar(v.items[i]) then None
    else if i + 1 == |v.items| then Render(v.items[i])
    else Concat(Render(v.items[i]), Concat(Some(","), RenderItems(v, i + 1)))
  }

  /** The values of a row, in key order, separated by commas. */
  ghost function RenderCells(row: Value, keys: seq<string>): Option<string>
    requires row.Object? && forall k :: k in keys ==> k in row.fields
    decreases row, 0, |keys|
  {
    if |keys| == 0 then Some("")
    else if |keys| == 1 then Render(row.fields[keys[0]])
    else Concat(Render(row.fields[keys[0]]), Concat(Some(","), RenderCells(row, keys[1..])))
  }

  /** `|cells` for each of items[i..]; every row must have exactly the keys of the first. */
  ghost function RenderRows(v: Value, keys: seq<string>, i: nat): Option<string>
    requires v.Array? && i <= |v.items| && Ascending(keys)
    decreases v, 0, |v.items| - i
  {
    if i == |v.items| then Some("")
    else
      var row := v.items[i];
      if !row.Object? || |row.fields| != |keys| || SortedKeys(row.fields.Keys) != keys then None
      else
        assert KeySet(keys) == row.fields.Keys;
        Concat(Some("|"), Concat(RenderCells(row, keys), RenderRows(v, keys, i + 1)))
  }

  ghost function RenderTable(v: Value): Option<string>
    requires v.Array? && |v.items| > 0 && v.items[0].Object?
    decreases v, 1, 0
  {
    var keys := SortedKeys(v.items[0].fields.Keys);
    if |v.items[0].fields| == 0 || !AllSafe(keys) then None
    else Concat(Some("[" + JoinKeys(keys)), Concat(RenderRows(v, keys, 0), Some("]")))
  }
}
