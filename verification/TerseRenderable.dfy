/** Which values the terse printer renders, and which strings it writes bare. */
module TerseRenderable {
  import opened Text
  import opened TextLaws
  import opened JsonString
  import opened JsonLaws
  import opened KeyOrder
  import opened TerseEncode
  import opened TerseDecode
  import opened TerseRoundTrip

  // ----- What can be rendered -----

  /** A letter or an underscore, then any of these, digits, hyphens and dots. */
  predicate IsPlainKey(key: string) {
    && key != ""
    && ('a' <= key[0] <= 'z' || 'A' <= key[0] <= 'Z' || key[0] == '_')
    && forall i :: 0 <= i < |key| ==>
         'a' <= key[i] <= 'z' || 'A' <= key[i] <= 'Z' || '0' <= key[i] <= '9' || key[i] == '_' || key[i] == '-' || key[i] == '.'
  }

  predicate HasPlainKeys(fields: map<string, Value>) {
    |fields| > 0 && forall k :: k in fields ==> IsPlainKey(k)
  }

  /**
   Scalars; objects that are not empty, with plain keys and renderable values; lists that are not empty, of scalars alone
   or of such objects alone, all with the same keys.
   */
  ghost predicate Renderable(v: Value) {
    match v
    case Object(fields) => HasPlainKeys(fields) && forall k :: k in fields ==> Renderable(fields[k])
    case Array(items) =>
      && |items| > 0
      && ((forall i :: 0 <= i < |items| ==> !items[i].Object? && !items[i].Array?)
          || forall i :: 0 <= i < |items| ==>
               && items[i].Object? && items[0].Object? && items[i].fields.Keys == items[0].fields.Keys
               && HasPlainKeys(items[i].fields) && forall k :: k in items[i].fields ==> Renderable(items[i].fields[k]))
    case _ => true
  }

  lemma {:induction false} PlainKeysAreSafe(fields: map<string, Value>)
    ensures AllSafe(SortedKeys(fields.Keys)) <==> forall k :: k in fields ==> IsPlainKey(k)
  {
    var keys := SortedKeys(fields.Keys);
    assert forall k :: k in keys <==> k in KeySet(keys);
    forall k ensures SafeKey(k) <==> IsPlainKey(k) {
    }
    if AllSafe(keys) {
      forall k | k in fields ensures IsPlainKey(k) {
        assert k in KeySet(keys);
        var i :| 0 <= i < |keys| && keys[i] == k;
        assert SafeKey(keys[i]);
      }
    }
  }

  lemma {:induction false} FieldsAreRendered(v: Value, keys: seq<string>)
    requires v.Object? && forall k :: k in keys ==> k in v.fields
    ensures RenderFields(v, keys).Some? <==> forall k :: k in keys ==> Renderable(v.fields[k])
    decreases v, 1, |keys|
  {
    if |keys| > 0 {
      RenderedIfRenderable(v.fields[keys[0]]);
      if |keys| > 1 {
        FieldsAreRendered(v, keys[1..]);
      }
      assert keys == [keys[0]] + keys[1..];
    }
  }

  lemma {:induction false} CellsAreRendered(row: Value, keys: seq<string>)
    requires row.Object? && forall k :: k in keys ==> k in row.fields
    ensures RenderCells(row, keys).Some? <==> forall k :: k in keys ==> Renderable(row.fields[k])
    decreases row, 1, |keys|
  {
    if |keys| > 0 {
      RenderedIfRenderable(row.fields[keys[0]]);
      if |keys| > 1 {
        CellsAreRendered(row, keys[1..]);
      }
      assert keys == [keys[0]] + keys[1..];
    }
  }

  lemma {:induction false} ItemsAreRendered(v: Value, i: nat)
    requires v.Array? && i < |v.items|
    ensures RenderItems(v, i).Some? <==> forall j :: i <= j < |v.items| ==> IsScalar(v.items[j])
    decreases |v.items| - i
  {
    if i + 1 < |v.items| {
      ItemsAreRendered(v, i + 1);
    }
  }

  ghost predicate IsRow(row: Value, keys: seq<string>) {
    row.Object? && row.fields.Keys == KeySet(keys) && forall k :: k in row.fields ==> Renderable(row.fields[k])
  }

  lemma {:induction false} RowHasKeys(row: Value, keys: seq<string>)
    requires row.Object? && Ascending(keys)
    ensures |row.fields| == |keys| && SortedKeys(row.fields.Keys) == keys <==> row.fields.Keys == KeySet(keys)
    ensures row.fields.Keys == KeySet(keys) ==> forall k :: k in row.fields <==> k in keys
  {
    if row.fields.Keys == KeySet(keys) {
      AscendingIsUnique(SortedKeys(row.fields.Keys), keys);
      CountOfKeys(row.fields, keys);
    }
  }

  lemma {:induction false} RowsOneByOne(v: Value, keys: seq<string>, i: nat)
    requires v.Array? && i < |v.items| && Ascending(keys)
    ensures RenderRows(v, keys, i).Some?
       <==> (&& v.items[i].Object? && v.items[i].fields.Keys == KeySet(keys)
             && (forall k :: k in keys ==> k in v.items[i].fields) && RenderCells(v.items[i], keys).Some?
             && RenderRows(v, keys, i + 1).Some?)
  {
    hide RenderCells, Ascending, IsScalar;
    if v.items[i].Object? {
      RowHasKeys(v.items[i], keys);
    }
  }

  lemma {:induction false} RowIsRendered(row: Value, keys: seq<string>)
    requires Ascending(keys)
    ensures (row.Object? && row.fields.Keys == KeySet(keys) && (forall k :: k in keys ==> k in row.fields)
             && RenderCells(row, keys).Some?) <==> IsRow(row, keys)
    decreases row, 2
  {
    hide RenderCells, Ascending, Renderable;
    if row.Object? && row.fields.Keys == KeySet(keys) {
      RowHasKeys(row, keys);
      CellsAreRendered(row, keys);
    }
  }

  lemma {:induction false} RowsAreRendered(v: Value, keys: seq<string>, i: nat)
    requires v.Array? && i <= |v.items| && Ascending(keys)
    ensures RenderRows(v, keys, i).Some? <==> forall j :: i <= j < |v.items| ==> IsRow(v.items[j], keys)
    decreases v, 0, |v.items| - i
  {
    hide *;
    if i < |v.items| {
      RowsOneByOne(v, keys, i);
      RowIsRendered(v.items[i], keys);
      RowsAreRendered(v, keys, i + 1);
    } else {
      NoRowLeft(v, keys);
    }
  }

  lemma {:induction false} NoRowLeft(v: Value, keys: seq<string>)
    requires v.Array? && Ascending(keys)
    ensures RenderRows(v, keys, |v.items|).Some?
  {
  }

  lemma {:induction false} CountOfKeys(fields: map<string, Value>, keys: seq<string>)
    requires Ascending(keys) && KeySet(keys) == fields.Keys
    ensures |fields| == |keys|
  {
    AscendingIsDistinct(keys);
    DistinctCount(keys);
    assert |fields| == |fields.Keys|;
  }

  lemma {:induction false} DistinctCount(keys: seq<string>)
    requires forall i, j :: 0 <= i < j < |keys| ==> keys[i] != keys[j]
    ensures |KeySet(keys)| == |keys|
  {
    if |keys| > 0 {
      DistinctCount(keys[1..]);
      assert KeySet(keys) == {keys[0]} + KeySet(keys[1..]);
    }
  }

  lemma {:induction false} TableIsRendered(v: Value)
    requires v.Array? && |v.items| > 0 && v.items[0].Object?
    ensures Render(v).Some?
       <==> (HasPlainKeys(v.items[0].fields)
             && forall i :: 0 <= i < |v.items| ==> IsRow(v.items[i], SortedKeys(v.items[0].fields.Keys)))
    decreases v, 1
  {
    var keys := SortedKeys(v.items[0].fields.Keys);
    PlainKeysAreSafe(v.items[0].fields);
    RowsAreRendered(v, keys, 0);
  }

  /** The printer renders exactly these. */
  lemma {:induction false} RenderedIfRenderable(v: Value)
    ensures Render(v).Some? <==> Renderable(v)
    decreases v, 2
  {
    match v
    case Object(fields) =>
      var keys := SortedKeys(fields.Keys);
      PlainKeysAreSafe(fields);
      assert forall k :: k in keys <==> k in KeySet(keys);
      FieldsAreRendered(v, keys);
    case Array(items) =>
      if |items| > 0 {
        if items[0].Object? {
          TableIsRendered(v);
          assert KeySet(SortedKeys(items[0].fields.Keys)) == items[0].fields.Keys;
        } else {
          ItemsAreRendered(v, 0);
        }
      }
    case _ =>
  }

  /** Every rendering is decoded, so every renderable value survives. */
  lemma {:induction false} RenderableSurvives(v: Value)
    requires WellFormed(v) && Renderable(v)
    ensures Render(v).Some? && Decode("~" + Render(v).value) == Ok(v)
  {
    RenderedIfRenderable(v);
    RoundTrip(v);
  }

  // ----- Bare strings -----

  lemma {:induction false} WholeAtom(s: string)
    requires AtomLength(s) == Some(|s|)
    ensures forall i :: 0 <= i < |s| ==> IsAtomChar(s[i])
  {
    if s != "" {
      WholeAtom(s[1..]);
      assert forall i :: 1 <= i < |s| ==> s[i] == s[1..][i - 1];
    }
  }

  /** A bracket starts an object or an array, if anything. */
  lemma {:induction false} BracketsGiveNoString(s: string)
    requires ParseValue(s).Ok? && s != "" && (s[0] == '{' || s[0] == '[')
    ensures !ParseValue(s).value.value.Str?
  {
    hide ParseFields, ParseItems, ParseRows, ParseKeys, HasTopLevelPipe;
    if s[0] == '{' {
      FieldsGiveObject(s[1..], map[]);
    } else if HasTopLevelPipe(s[1..]) {
      var keys := ParseKeys(s[1..], []).value;
      RowsGiveArray(keys.rest, keys.value, []);
    } else {
      ItemsGiveArray(s[1..], []);
    }
  }

  lemma {:induction false} BareIsSafe(s: string)
    requires '"' !in s && '\\' !in s && Decode("~" + s) == Ok(Str(s))
    ensures SafeAtom(s)
  {
    hide ParseFields, ParseItems, ParseTable, ParseQuoted, ParseNumber;
    assert ("~" + s)[1..] == s;
    assert s != "" && s[0] in s;
    if s[0] == '{' || s[0] == '[' {
      BracketsGiveNoString(s);
    } else {
      assert AtomLength(s) == Some(|s|);
      WholeAtom(s);
      assert s[..|s|] == s;
      forall i | 0 <= i < |s| ensures s[i] != '"' && s[i] != '\\' {
        assert s[i] in s;
      }
    }
  }

  lemma {:induction false} FieldsGiveObject(s: string, fields: map<string, Value>)
    ensures ParseFields(s, fields).Ok? ==> ParseFields(s, fields).value.value.Object?
    decreases |s|
  {
    var key := ParseKey(s, {':'});
    if key.Ok? && key.value.value !in fields {
      var v := ParseValue(key.value.rest[1..]);
      if v.Ok? && !Starts(v.value.rest, '}') && Starts(v.value.rest, ';') {
        FieldsGiveObject(v.value.rest[1..], fields[key.value.value := v.value.value]);
      }
    }
  }

  lemma {:induction false} ItemsGiveArray(s: string, items: seq<Value>)
    ensures ParseItems(s, items).Ok? ==> ParseItems(s, items).value.value.Array?
    decreases |s|
  {
    var v := ParseValue(s);
    if v.Ok? && !Starts(v.value.rest, ']') && Starts(v.value.rest, ',') {
      ItemsGiveArray(v.value.rest[1..], items + [v.value.value]);
    }
  }

  lemma {:induction false} RowsGiveArray(s: string, keys: seq<string>, rows: seq<Value>)
    requires |keys| > 0
    ensures ParseRows(s, keys, rows).Ok? ==> ParseRows(s, keys, rows).value.value.Array?
    decreases |s|
  {
    var row := ParseCells(s, keys, map[]);
    if row.Ok? && !Starts(row.value.rest, ']') && Starts(row.value.rest, '|') {
      RowsGiveArray(row.value.rest[1..], keys, rows + [Object(row.value.value)]);
    }
  }

  /** A string is written bare exactly when nothing in it has to be escaped and it is read back, bare, as itself. */
  lemma {:induction false} BareIfReadBack(s: string)
    ensures Render(Str(s)) == Some(s) <==> '"' !in s && '\\' !in s && Decode("~" + s) == Ok(Str(s))
  {
    if Render(Str(s)) == Some(s) {
      if !SafeAtom(s) {
        assert |Quote(s)| > 0 && Quote(s)[0] == '"';
        QuoteIsLonger(s);
      }
      RoundTrip(Str(s));
    } else if '"' !in s && '\\' !in s && Decode("~" + s) == Ok(Str(s)) {
      BareIsSafe(s);
    }
  }

  lemma {:induction false} EscapeGrows(s: string)
    ensures |Escape(s)| >= |s|
  {
    if s != "" {
      EscapeGrows(s[1..]);
    }
  }

  lemma {:induction false} QuoteIsLonger(s: string)
    ensures |Quote(s)| > |s|
  {
    EscapeGrows(s);
  }

  /** The same, character by character. */
  lemma {:induction false} BareStrings(s: string)
    ensures Render(Str(s)) == Some(s)
       <==> (&& s != "" && s != "null" && s != "true" && s != "false" && !IsLiteral(s)
             && forall i :: 0 <= i < |s| ==>
                  && !IsWhite(s[i]) && s[i] >= '\U{20}' && !('\U{7F}' <= s[i] <= '\U{9F}')
                  && s[i] !in {',', ';', ':', '{', '}', '[', ']', '|', '"', '\\'})
  {
    hide ParseNumber, IsNumber, IsLiteral, IsSpace, IsWhite;
    WhiteSpace(s);
    assert SafeAtom(s) ==> forall i :: 0 <= i < |s| ==> IsAtomChar(s[i]);
    if !SafeAtom(s) {
      assert |Quote(s)| > 0 && Quote(s)[0] == '"';
      QuoteIsLonger(s);
    }
    if s != "" && !IsWhite(s[0]) && !IsWhite(s[|s| - 1]) {
      UnspacedNumber(s);
    }
  }

  lemma {:induction false} AtEitherEnd(front: string, n: string, end: string)
    requires front + n + end != ""
    ensures front == "" || (front + n + end)[0] in front
    ensures end == "" || (front + n + end)[|front + n + end| - 1] in end
  {
  }

  /** Without white space a number is its own literal. */
  lemma {:induction false} UnspacedNumber(s: string)
    requires s != "" && !IsWhite(s[0]) && !IsWhite(s[|s| - 1])
    ensures ParseNumber(s) == if IsLiteral(s) then Some(s) else None
  {
    hide ParseNumber, IsLiteral;
    if IsLiteral(s) {
      SpacedNumbersAreRead(s, s);
      assert s == "" + s + "";
      assert IsSpacedNumber(s, s, "", "");
    }
    if ParseNumber(s).Some? {
      var n := ParseNumber(s).value;
      SpacedNumbersAreRead(s, n);
      var front, end :| IsSpacedNumber(s, n, front, end);
      AtEitherEnd(front, n, end);
      assert s == n;
    }
  }
}
