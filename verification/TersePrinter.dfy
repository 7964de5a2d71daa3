/**
 The printer of internal/terse/encode.go in its own form: methods that write into a buffer and report whether the
 value could be rendered.

 A value that could not be rendered leaves its buffer as it was.
 */
module TersePrinter {
  import opened Text
  import opened KeyOrder
  import opened TerseEncode
  import opened TerseDecode
  import TerseParser
  import opened TerseReading
  import opened TerseRoundTrip
  import opened TerseRenderable

  class Buffer {
    var text: string

    constructor ()
      ensures text == ""
    {
      text := "";
    }

    method Write(s: string)
      modifies this
      ensures text == old(text) + s
    {
      text := text + s;
    }
  }

  /** What a method adds to its buffer. */
  function Written(rendered: Option<string>): string {
    if rendered.Some? then rendered.value else ""
  }

  /** sortedKeys: the keys in order, unless one is unsafe. */
  method SafeSortedKeys(keys: set<string>) returns (sorted: Option<seq<string>>)
    ensures sorted == if AllSafe(SortedKeys(keys)) then Some(SortedKeys(keys)) else None
  {
    var collected: seq<string> := [];
    var remaining := keys;
    while remaining != {}
      invariant remaining <= keys && Ascending(collected) && KeySet(collected) == keys - remaining
      invariant forall k :: k in collected ==> SafeKey(k)
      decreases remaining
    {
      var key :| key in remaining;
      if !SafeKey(key) {
        assert key in KeySet(SortedKeys(keys));
        return None;
      }
      assert key !in KeySet(collected);
      InsertKeeps(key, collected);
      assert forall k :: k in Insert(key, collected) ==> k in KeySet(Insert(key, collected));
      assert forall k :: k in KeySet(collected) ==> k in collected;
      collected := Insert(key, collected);
      remaining := remaining - {key};
    }
    AscendingIsUnique(collected, SortedKeys(keys));
    return Some(collected);
  }

  method RenderValueTo(output: Buffer, value: Value) returns (ok: bool)
    modifies output
    ensures ok == Render(value).Some? && output.text == old(output.text) + Written(Render(value))
    decreases value, 3, 0
  {
    match value
    case Null => output.Write("null"); ok := true;
    case Bool(b) => output.Write(if b then "true" else "false"); ok := true;
    case Number(n) => output.Write(n); ok := true;
    case Str(s) => output.Write(RenderString(s)); ok := true;
    case Object(_) => ok := RenderObjectTo(output, value);
    case Array(_) => ok := RenderArrayTo(output, value);
  }

  method RenderObjectTo(output: Buffer, value: Value) returns (ok: bool)
    requires value.Object?
    modifies output
    ensures ok == Render(value).Some? && output.text == old(output.text) + Written(Render(value))
    decreases value, 2, 0
  {
    if |value.fields| == 0 {
      return false;
    }
    var keys := SafeSortedKeys(value.fields.Keys);
    if keys.None? {
      return false;
    }
    NonEmptyKeys(value.fields);
    assert forall k :: k in keys.value ==> k in KeySet(keys.value);
    var body := new Buffer();
    ok := WriteFields(body, value, keys.value);
    assert Render(value) == Concat(Some("{"), Concat(RenderFields(value, keys.value), Some("}")));
    if ok {
      assert body.text == RenderFields(value, keys.value).value;
      Wrap(output, "{", body, "}");
    }
  }

  /** Writes the body between two brackets. */
  method Wrap(output: Buffer, open: string, body: Buffer, close: string)
    requires output != body
    modifies output
    ensures output.text == old(output.text) + (open + (body.text + close))
  {
    Regroup4(output.text, open, body.text, close);
    output.Write(open);
    output.Write(body.text);
    output.Write(close);
  }

  method WriteFields(body: Buffer, value: Value, keys: seq<string>) returns (ok: bool)
    requires value.Object? && |keys| > 0 && forall k :: k in keys ==> k in value.fields
    modifies body
    ensures ok == RenderFields(value, keys).Some?
    ensures ok ==> body.text == old(body.text) + RenderFields(value, keys).value
    decreases value, 0, |keys|
  {
    var i := 0;
    ghost var whole := Concat(Some(body.text), RenderFields(value, keys));
    assert keys[0..] == keys;
    while i < |keys|
      invariant 0 <= i <= |keys|
      invariant if i == |keys| then whole == Some(body.text)
                else whole == Concat(Some(if i > 0 then body.text + ";" else body.text), RenderFields(value, keys[i..]))
    {
      if i > 0 {
        body.Write(";");
      }
      ghost var before := body.text;
      body.Write(keys[i]);
      body.Write(":");
      ok := RenderValueTo(body, value.fields[keys[i]]);
      FieldsStep(value, keys, i, before);
      if !ok {
        return false;
      }
      i := i + 1;
    }
    return true;
  }

  /** Peels the first of the fields still to render. */
  lemma {:induction false} FieldsStep(v: Value, keys: seq<string>, i: nat, before: string)
    requires v.Object? && (forall k :: k in keys ==> k in v.fields) && i < |keys|
    ensures var value := Render(v.fields[keys[i]]);
            var after := before + keys[i] + ":" + Written(value);
            Concat(Some(before), RenderFields(v, keys[i..]))
              == if value.None? then None
                 else if i + 1 == |keys| then Some(after)
                 else Concat(Some(after + ";"), RenderFields(v, keys[i + 1..]))
  {
    var key, value := keys[i], Render(v.fields[keys[i]]);
    assert keys[i..][0] == key && keys[i..][1..] == keys[i + 1..];
    if value.Some? {
      Regroup4(before, key, ":", value.value);
      Regroup3(key, ":", value.value);
      if i + 1 < |keys| && RenderFields(v, keys[i + 1..]).Some? {
        Regroup4(before, key + ":" + value.value, ";", RenderFields(v, keys[i + 1..]).value);
      }
    }
  }

  method RenderArrayTo(output: Buffer, value: Value) returns (ok: bool)
    requires value.Array?
    modifies output
    ensures ok == Render(value).Some? && output.text == old(output.text) + Written(Render(value))
    decreases value, 2, 0
  {
    if |value.items| == 0 {
      return false;
    }
    if value.items[0].Object? {
      ok := RenderTableTo(output, value);
      return;
    }
    var body := new Buffer();
    ok := WriteItems(body, value);
    assert Render(value) == Concat(Some("["), Concat(RenderItems(value, 0), Some("]")));
    if ok {
      assert body.text == RenderItems(value, 0).value;
      Wrap(output, "[", body, "]");
    }
  }

  method WriteItems(body: Buffer, value: Value) returns (ok: bool)
    requires value.Array? && |value.items| > 0
    modifies body
    ensures ok == RenderItems(value, 0).Some?
    ensures ok ==> body.text == old(body.text) + RenderItems(value, 0).value
    decreases value, 0, 0
  {
    var i := 0;
    ghost var whole := Concat(Some(body.text), RenderItems(value, 0));
    while i < |value.items|
      invariant 0 <= i <= |value.items|
      invariant if i == |value.items| then whole == Some(body.text)
                else whole == Concat(Some(if i > 0 then body.text + "," else body.text), RenderItems(value, i))
    {
      if !IsScalar(value.items[i]) {
        return false;
      }
      if i > 0 {
        body.Write(",");
      }
      ghost var before := body.text;
      ok := RenderValueTo(body, value.items[i]);
      if !ok {
        return false;
      }
      ItemsStep(value, i, before);
      i := i + 1;
    }
    return true;
  }

  lemma {:induction false} ItemsStep(v: Value, i: nat, before: string)
    requires v.Array? && i < |v.items| && IsScalar(v.items[i]) && Render(v.items[i]).Some?
    ensures var after := before + Render(v.items[i]).value;
            Concat(Some(before), RenderItems(v, i))
              == if i + 1 == |v.items| then Some(after) else Concat(Some(after + ","), RenderItems(v, i + 1))
  {
    var value := Render(v.items[i]).value;
    if i + 1 < |v.items| && RenderItems(v, i + 1).Some? {
      Regroup4(before, value, ",", RenderItems(v, i + 1).value);
    }
  }

  method RenderTableTo(output: Buffer, value: Value) returns (ok: bool)
    requires value.Array? && |value.items| > 0 && value.items[0].Object?
    modifies output
    ensures ok == Render(value).Some? && output.text == old(output.text) + Written(Render(value))
    decreases value, 1, 0
  {
    if |value.items[0].fields| == 0 {
      return false;
    }
    var keys := SafeSortedKeys(value.items[0].fields.Keys);
    if keys.None? {
      return false;
    }
    NonEmptyKeys(value.items[0].fields);
    var body := new Buffer();
    body.Write(JoinKeys(keys.value));
    assert body.text == JoinKeys(keys.value);
    ok := WriteRows(body, value, keys.value);
    if ok {
      ghost var before, rows := output.text, RenderRows(value, keys.value, 0).value;
      Wrap(output, "[", body, "]");
      Regroup3("[", JoinKeys(keys.value), rows + "]");
      Regroup3(JoinKeys(keys.value), rows, "]");
    }
  }

  method WriteRows(body: Buffer, value: Value, keys: seq<string>) returns (ok: bool)
    requires value.Array? && |keys| > 0 && Ascending(keys) && AllSafe(keys)
    modifies body
    ensures ok == RenderRows(value, keys, 0).Some?
    ensures ok ==> body.text == old(body.text) + RenderRows(value, keys, 0).value
    decreases value, 0, 0
  {
    ghost var whole := Concat(Some(body.text), RenderRows(value, keys, 0));
    for i := 0 to |value.items|
      invariant whole == Concat(Some(body.text), RenderRows(value, keys, i))
    {
      var row := value.items[i];
      if !row.Object? || |row.fields| != |keys| {
        return false;
      }
      var rowKeys := SafeSortedKeys(row.fields.Keys);
      if rowKeys.None? || rowKeys.value != keys {
        return false;
      }
      ghost var before := body.text;
      body.Write("|");
      assert forall k :: k in keys ==> k in KeySet(keys);
      ok := RenderCellsTo(body, row, keys);
      if !ok {
        return false;
      }
      if RenderRows(value, keys, i + 1).Some? {
        Regroup4(before, "|", RenderCells(row, keys).value, RenderRows(value, keys, i + 1).value);
      }
    }
    return true;
  }

  method RenderCellsTo(output: Buffer, row: Value, keys: seq<string>) returns (ok: bool)
    requires row.Object? && |keys| > 0 && forall k :: k in keys ==> k in row.fields
    modifies output
    ensures ok == RenderCells(row, keys).Some?
    ensures ok ==> output.text == old(output.text) + RenderCells(row, keys).value
    decreases row, 4, 0
  {
    var i := 0;
    ghost var whole := Concat(Some(output.text), RenderCells(row, keys));
    assert keys[0..] == keys;
    while i < |keys|
      invariant 0 <= i <= |keys|
      invariant i == |keys| ==> whole == Some(output.text)
      invariant i == 0 ==> output.text == old(output.text)
      invariant i < |keys| ==>
        whole == Concat(Some(if i > 0 then output.text + "," else output.text), RenderCells(row, keys[i..]))
    {
      if i > 0 {
        output.Write(",");
      }
      ghost var before := output.text;
      ok := RenderValueTo(output, row.fields[keys[i]]);
      CellsStep(row, keys, i, before);
      if !ok {
        return false;
      }
      i := i + 1;
    }
    return true;
  }

  lemma {:induction false} CellsStep(row: Value, keys: seq<string>, i: nat, before: string)
    requires row.Object? && (forall k :: k in keys ==> k in row.fields) && i < |keys|
    ensures var value := Render(row.fields[keys[i]]);
            Concat(Some(before), RenderCells(row, keys[i..]))
              == if value.None? then None
                 else if i + 1 == |keys| then Some(before + value.value)
                 else Concat(Some(before + value.value + ","), RenderCells(row, keys[i + 1..]))
  {
    var value := Render(row.fields[keys[i]]);
    assert keys[i..][0] == keys[i] && keys[i..][1..] == keys[i + 1..];
    if value.Some? && i + 1 < |keys| && RenderCells(row, keys[i + 1..]).Some? {
      Regroup4(before, value.value, ",", RenderCells(row, keys[i + 1..]).value);
    }
  }

  // ----- Format -----

  const MINIMUM_INPUT_TOKENS: nat := 100

  /** How long a text is, in bytes and in estimated tokens. */
  datatype Size = Size(bytes: nat, tokens: nat)

  predicate Shrinks(raw: Size, candidate: Size) {
    candidate.bytes < raw.bytes && candidate.tokens < raw.tokens
  }

  /** What Format would return if it did not decode its candidate again. */
  ghost function Unchecked(raw: Size, want: Option<Value>, size: string -> Size): Option<string> {
    if raw.tokens < MINIMUM_INPUT_TOKENS || want.None? || Render(want.value).None? then None
    else
      var candidate := "~" + Render(want.value).value;
      if Shrinks(raw, size(candidate)) then Some(candidate) else None
  }

  /** Which values are formatted at all, and into which text. */
  lemma {:induction false} FormatsExactly(raw: Size, want: Option<Value>, size: string -> Size, text: string)
    requires want.Some? ==> WellFormed(want.value)
    ensures Unchecked(raw, want, size) == Some(text)
       <==> (&& raw.tokens >= 100 && want.Some? && Renderable(want.value)
             && text != "" && text[0] == '~' && Render(want.value) == Some(text[1..])
             && size(text).bytes < raw.bytes && size(text).tokens < raw.tokens)
  {
    hide Render, Renderable, WellFormed;
    if want.Some? {
      RenderedIfRenderable(want.value);
      if text != "" && text[0] == '~' && Render(want.value) == Some(text[1..]) {
        assert text == "~" + text[1..];
      }
    }
  }

  /**
   Format, given the size of its input and the value that decodes from it (None when it is not one JSON document).
   The decoded candidate always equals that value, so the check changes no result.
   */
  method Format(raw: Size, want: Option<Value>, size: string -> Size) returns (formatted: Option<string>)
    requires want.Some? ==> WellFormed(want.value)
    ensures formatted == Unchecked(raw, want, size)
    ensures formatted.Some? ==> Decode(formatted.value) == Ok(want.value) && Shrinks(raw, size(formatted.value))
  {
    if raw.tokens < MINIMUM_INPUT_TOKENS || want.None? {
      return None;
    }
    var rendered := new Buffer();
    rendered.Write("~");
    var ok := RenderValueTo(rendered, want.value);
    if !ok {
      return None;
    }
    var candidate := rendered.text;
    assert candidate == "~" + Render(want.value).value;
    var got := TerseParser.DecodeDocument(candidate);
    RoundTrip(want.value);
    if got.Err? || got.value != want.value {
      return None;
    }
    if !Shrinks(raw, size(candidate)) {
      return None;
    }
    return Some(candidate);
  }
}
