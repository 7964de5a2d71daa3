/**
 The texts that the terse parser accepts, and what they stand for.

 A bare string may hold a quote behind its first character, but the search for a bar takes every quote for the begin of a
 literal, and may then find one where there is none.  So everything that is accepted is in the grammar, and everything in
 the grammar whose bare strings hold no quotes is accepted; StrayQuoteMisleads has a text in between.
 */
module TerseGrammar {
  import opened Text
  import opened TextLaws
  import opened JsonString
  import opened JsonLaws
  import opened KeyOrder
  import opened TerseEncode
  import opened TerseDecode
  import opened TerseReading
  import opened TerseRenderable

  // ----- The grammar -----

  predicate IsBareChar(c: char) {
    && !IsWhite(c) && c >= '\U{20}' && !('\U{7F}' <= c <= '\U{9F}')
    && c !in {',', ';', ':', '{', '}', '[', ']', '|'}
  }

  /** A word, a number, or a string without quotes around it; `plain` is without quotes in it. */
  ghost predicate IsBare(s: string, v: Value, plain: bool) {
    && s != "" && s[0] != '"' && (plain ==> '"' !in s) && (forall i :: 0 <= i < |s| ==> IsBareChar(s[i]))
    && v == if s == "null" then Null
            else if s == "true" then Bool(true)
            else if s == "false" then Bool(false)
            else if IsLiteral(s) then Number(s)
            else Str(s)
  }

  ghost predicate IsQuoted(s: string, v: Value) {
    exists items :: AllItems(items) && s == "\"" + (ItemsText(items) + "\"") && v == Str(ItemsValue(items))
  }

  predicate AreKeys(keys: seq<string>) {
    |keys| > 0 && (forall i :: 0 <= i < |keys| ==> IsPlainKey(keys[i])) && Distinct(keys)
  }

  /** "key:value;key:value". */
  function FieldsText(keys: seq<string>, parts: seq<string>): string
    requires |keys| == |parts|
  {
    if |keys| == 0 then ""
    else if |keys| == 1 then keys[0] + (":" + parts[0])
    else keys[0] + (":" + (parts[0] + (";" + FieldsText(keys[1..], parts[1..]))))
  }

  /** "value,value". */
  function Joined(parts: seq<string>): string {
    if |parts| == 0 then ""
    else if |parts| == 1 then parts[0]
    else parts[0] + ("," + Joined(parts[1..]))
  }

  /** "|value,value|value,value". */
  function RowsText(rows: seq<seq<string>>): string {
    if |rows| == 0 then "" else "|" + (Joined(rows[0]) + RowsText(rows[1..]))
  }

  ghost predicate IsObject(s: string, fields: map<string, Value>, plain: bool, keys: seq<string>, parts: seq<string>)
    decreases |s|, 0
  {
    && AreKeys(keys) && |parts| == |keys| && s == "{" + (FieldsText(keys, parts) + "}") && fields.Keys == KeySet(keys)
    && forall i :: 0 <= i < |keys| ==> |parts[i]| < |s| && keys[i] in fields && Reads(parts[i], fields[keys[i]], plain)
  }

  ghost predicate IsList(s: string, items: seq<Value>, plain: bool, parts: seq<string>)
    decreases |s|, 0
  {
    && |parts| == |items| > 0 && s == "[" + (Joined(parts) + "]")
    && forall i :: 0 <= i < |parts| ==> |parts[i]| < |s| && Reads(parts[i], items[i], plain)
  }

  ghost predicate IsRow(s: string, v: Value, plain: bool, keys: seq<string>, cells: seq<string>)
    decreases |s|, 0
  {
    && v.Object? && v.fields.Keys == KeySet(keys) && |cells| == |keys|
    && forall i :: 0 <= i < |keys| ==> |cells[i]| < |s| && keys[i] in v.fields && Reads(cells[i], v.fields[keys[i]], plain)
  }

  ghost predicate IsTable(s: string, items: seq<Value>, plain: bool, keys: seq<string>, rows: seq<seq<string>>)
    decreases |s|, 1
  {
    && AreKeys(keys) && |rows| == |items| > 0 && s == "[" + (Joined(keys) + (RowsText(rows) + "]"))
    && forall r :: 0 <= r < |rows| ==> IsRow(s, items[r], plain, keys, rows[r])
  }

  /** The text stands for the value. */
  ghost predicate Reads(s: string, v: Value, plain: bool)
    decreases |s|, 2
  {
    || IsBare(s, v, plain)
    || IsQuoted(s, v)
    || (v.Object? && exists keys, parts :: IsObject(s, v.fields, plain, keys, parts))
    || (v.Array? && exists parts :: IsList(s, v.items, plain, parts))
    || (v.Array? && exists keys, rows :: IsTable(s, v.items, plain, keys, rows))
  }

  // ----- One part more -----

  lemma {:induction false} OneField(key: string, part: string, rest: string)
    ensures FieldsText([key], [part]) + rest == key + (":" + (part + rest))
  {
    Regroup4(key, ":", part, rest);
  }

  lemma {:induction false} FieldInFront(key: string, part: string, keys: seq<string>, parts: seq<string>, rest: string)
    requires |keys| == |parts| > 0
    ensures FieldsText([key] + keys, [part] + parts) + rest == key + (":" + (part + (";" + (FieldsText(keys, parts) + rest))))
  {
    var more := FieldsText(keys, parts);
    assert ([key] + keys)[1..] == keys && ([part] + parts)[1..] == parts;
    assert FieldsText([key] + keys, [part] + parts) == key + (":" + (part + (";" + more)));
    hide FieldsText;
  }

  lemma {:induction false} OnePart(part: string)
    ensures Joined([part]) == part
  {
  }

  lemma {:induction false} PartInFront(part: string, parts: seq<string>, rest: string)
    requires |parts| > 0
    ensures Joined([part] + parts) + rest == part + ("," + (Joined(parts) + rest))
  {
    assert ([part] + parts)[1..] == parts;
    assert Joined([part] + parts) == part + ("," + Joined(parts));
    hide Joined;
  }

  lemma {:induction false} NoRows()
    ensures RowsText([]) == "" && forall cells: seq<string> {:trigger [cells] + []} :: [cells] + [] == [cells]
  {
  }

  lemma {:induction false} RowInFront(cells: seq<string>, rows: seq<seq<string>>, rest: string)
    ensures RowsText([cells] + rows) + rest == "|" + (Joined(cells) + (RowsText(rows) + rest))
  {
    assert ([cells] + rows)[1..] == rows;
    assert RowsText([cells] + rows) == "|" + (Joined(cells) + RowsText(rows));
    hide RowsText, Joined;
  }

  // ----- Lengths -----

  lemma {:induction false} PartIsShorter(keys: seq<string>, parts: seq<string>, i: nat)
    requires |keys| == |parts| && i < |keys|
    ensures |parts[i]| < |FieldsText(keys, parts)|
  {
    if i > 0 {
      PartIsShorter(keys[1..], parts[1..], i - 1);
    }
  }

  lemma {:induction false} PartIsNoLonger(parts: seq<string>, i: nat)
    requires i < |parts|
    ensures |parts[i]| <= |Joined(parts)|
  {
    if i > 0 {
      PartIsNoLonger(parts[1..], i - 1);
    }
  }

  lemma {:induction false} RowIsShorter(rows: seq<seq<string>>, r: nat)
    requires r < |rows|
    ensures |Joined(rows[r])| < |RowsText(rows)|
  {
    if r > 0 {
      RowIsShorter(rows[1..], r - 1);
    }
  }

  // ----- What is accepted is in the grammar -----

  lemma {:induction false} AtomIsBare(s: string) returns (t: string)
    requires s != "" && s[0] != '"' && ParseAtom(s).Ok?
    ensures s == t + ParseAtom(s).value.rest && IsBare(t, ParseAtom(s).value.value, false)
  {
    var n := AtomLength(s).value;
    t := s[..n];
    AtomIsAtom(s);
    WhiteSpace(t);
    hide AtomLength, ParseNumber, IsLiteral, IsWhite, IsSpace;
    UnspacedNumber(t);
  }

  lemma {:induction false} AtomIsAtom(s: string)
    requires AtomLength(s).Some?
    ensures forall i :: 0 <= i < AtomLength(s).value ==> IsAtomChar(s[i])
  {
    if s != "" && !IsDelimiter(s[0]) {
      AtomIsAtom(s[1..]);
      forall i | 0 < i < AtomLength(s).value ensures IsAtomChar(s[i]) {
        assert s[i] == s[1..][i - 1];
      }
    }
  }

  lemma {:induction false} LiteralIsQuoted(s: string) returns (t: string)
    requires Starts(s, '"') && ParseQuoted(s).Ok?
    ensures s == t + ParseQuoted(s).value.rest && IsQuoted(t, ParseQuoted(s).value.value)
  {
    hide QuotedLength, Unescape, ItemsText, ItemsValue, AllItems;
    var n := QuotedLength(s[1..], false).value;
    t := s[..1 + n];
    var inner := t[1..|t| - 1];
    LiteralsAreRead(inner);
    var items :| AllItems(items) && ItemsText(items) == inner;
    assert t == "\"" + (inner + "\"");
  }

  lemma {:induction false} ValueReads(s: string) returns (t: string)
    requires ParseValue(s).Ok?
    ensures s == t + ParseValue(s).value.rest && Reads(t, ParseValue(s).value.value, false)
    decreases |s|, 1
  {
    hide IsBare, IsQuoted, ParseAtom, ParseQuoted, ParseFields, ParseItems, ParseTable, HasTopLevelPipe;
    var p := ParseValue(s).value;
    if s[0] == '{' {
      t := ObjectReads(s[1..]);
    } else if s[0] == '[' && HasTopLevelPipe(s[1..]) {
      t := TableReads(s[1..]);
    } else if s[0] == '[' {
      t := ListReads(s[1..]);
    } else if s[0] == '"' {
      t := LiteralIsQuoted(s);
    } else {
      t := AtomIsBare(s);
    }
  }

  lemma {:induction false} ObjectReads(s: string) returns (t: string)
    requires ParseFields(s, map[]).Ok?
    ensures "{" + s == t + ParseFields(s, map[]).value.rest && Reads(t, ParseFields(s, map[]).value.value, false)
    decreases |s|, 3
  {
    hide *;
    var p := ParseFields(s, map[]).value;
    var keys, parts := FieldsRead(s, map[]);
    t := "{" + (FieldsText(keys, parts) + "}");
    Regroup4("{", FieldsText(keys, parts), "}", p.rest);
    AllAdded(p.value.fields, keys, parts);
    ObjectIsRead(p.value, keys, parts);
  }

  lemma {:induction false} AllAdded(fields: map<string, Value>, keys: seq<string>, parts: seq<string>)
    requires Adds(fields, map[], keys, parts)
    ensures |parts| == |keys| && fields.Keys == KeySet(keys)
    ensures forall i :: 0 <= i < |keys| ==> keys[i] in fields && Reads(parts[i], fields[keys[i]], false)
  {
    hide Reads;
  }

  lemma {:induction false} ObjectIsRead(v: Value, keys: seq<string>, parts: seq<string>)
    requires v.Object? && AreKeys(keys) && |parts| == |keys| && v.fields.Keys == KeySet(keys)
    requires forall i :: 0 <= i < |keys| ==> keys[i] in v.fields && Reads(parts[i], v.fields[keys[i]], false)
    ensures Reads("{" + (FieldsText(keys, parts) + "}"), v, false)
  {
    var s := "{" + (FieldsText(keys, parts) + "}");
    assert IsObject(s, v.fields, false, keys, parts) by {
      hide Reads, AreKeys, FieldsText;
      forall i | 0 <= i < |keys| ensures |parts[i]| < |s| {
        PartIsShorter(keys, parts, i);
      }
    }
    hide IsObject, IsBare, IsQuoted, IsList, IsTable, FieldsText;
  }

  lemma {:induction false} FieldsTurn(s: string, before: map<string, Value>)
    requires ParseFields(s, before).Ok?
    ensures var key := ParseKey(s, {':'});
            && key.Ok? && key.value.value !in before && ParseValue(key.value.rest[1..]).Ok?
            && var v := ParseValue(key.value.rest[1..]).value;
               var more := before[key.value.value := v.value];
               && (Starts(v.rest, '}') || Starts(v.rest, ';'))
               && ParseFields(s, before)
                  == if Starts(v.rest, '}') then Ok(Parsed(Object(more), v.rest[1..])) else ParseFields(v.rest[1..], more)
  {
  }

  /** The keys with their values, and those before them as they were. */
  ghost predicate Adds(fields: map<string, Value>, before: map<string, Value>, keys: seq<string>, parts: seq<string>) {
    && |parts| == |keys| && fields.Keys == before.Keys + KeySet(keys)
    && (forall k :: k in before ==> k !in keys && k in fields && fields[k] == before[k])
    && forall i :: 0 <= i < |keys| ==> keys[i] in fields && Reads(parts[i], fields[keys[i]], false)
  }

  lemma {:induction false} AddsOne(before: map<string, Value>, key: string, part: string, v: Value)
    requires key !in before && Reads(part, v, false)
    ensures Adds(before[key := v], before, [key], [part])
  {
    hide Reads;
  }

  lemma {:induction false} AddsMore(fields: map<string, Value>, before: map<string, Value>, key: string, part: string, v: Value,
                                    keys: seq<string>, parts: seq<string>)
    requires key !in before && Reads(part, v, false) && Adds(fields, before[key := v], keys, parts)
    ensures Adds(fields, before, [key] + keys, [part] + parts) && key !in keys
  {
    hide Reads;
  }

  lemma {:induction false} FieldsRead(s: string, before: map<string, Value>) returns (keys: seq<string>, parts: seq<string>)
    requires ParseFields(s, before).Ok?
    ensures var p := ParseFields(s, before).value;
            && p.value.Object? && |parts| == |keys| && AreKeys(keys) && s == FieldsText(keys, parts) + ("}" + p.rest)
            && Adds(p.value.fields, before, keys, parts)
    decreases |s|, 2
  {
    hide ParseKey, IsPlainKey, ParseValue, ParseFields, FieldsText, Adds;
    FieldsTurn(s, before);
    var key := ParseKey(s, {':'}).value;
    KeyIsPlain(s, {':'});
    var part := ValueReads(key.rest[1..]);
    var v := ParseValue(key.rest[1..]).value;
    hide Reads;
    var more := before[key.value := v.value];
    if Starts(v.rest, '}') {
      keys, parts := [key.value], [part];
      assert v.rest == "}" + v.rest[1..];
      OneField(key.value, part, v.rest);
      AddsOne(before, key.value, part, v.value);
    } else {
      var keys', parts' := FieldsRead(v.rest[1..], more);
      keys, parts := [key.value] + keys', [part] + parts';
      assert v.rest == ";" + v.rest[1..];
      FieldInFront(key.value, part, keys', parts', "}" + ParseFields(s, before).value.rest);
      AddsMore(ParseFields(s, before).value.value.fields, before, key.value, part, v.value, keys', parts');
      DistinctInFront(key.value, keys');
    }
  }

  lemma {:induction false} DistinctInFront(key: string, keys: seq<string>)
    requires Distinct(keys) && key !in keys
    ensures Distinct([key] + keys)
  {
  }

  lemma {:induction false} KeyIsPlain(s: string, terminators: set<char>)
    requires ParseKey(s, terminators).Ok?
    ensures var key := ParseKey(s, terminators).value;
            IsPlainKey(key.value) && s == key.value + key.rest && key.rest == [key.rest[0]] + key.rest[1..]
  {
    hide FindTerminator;
  }

  lemma {:induction false} ListReads(s: string) returns (t: string)
    requires ParseItems(s, []).Ok?
    ensures "[" + s == t + ParseItems(s, []).value.rest && Reads(t, ParseItems(s, []).value.value, false)
    decreases |s|, 3
  {
    hide *;
    var p := ParseItems(s, []).value;
    var parts := ItemsRead(s, []);
    t := "[" + (Joined(parts) + "]");
    Regroup4("[", Joined(parts), "]", p.rest);
    ListIsRead(p.value, parts);
  }

  lemma {:induction false} ListIsRead(v: Value, parts: seq<string>)
    requires v.Array? && |parts| == |v.items| > 0 && forall i :: 0 <= i < |parts| ==> Reads(parts[i], v.items[i], false)
    ensures Reads("[" + (Joined(parts) + "]"), v, false)
  {
    var s := "[" + (Joined(parts) + "]");
    assert IsList(s, v.items, false, parts) by {
      hide Reads, Joined;
      forall i | 0 <= i < |parts| ensures |parts[i]| < |s| {
        PartIsNoLonger(parts, i);
      }
    }
    hide IsTable, IsBare, IsQuoted, IsList, IsObject, Joined;
  }

  lemma {:induction false} ItemsRead(s: string, before: seq<Value>) returns (parts: seq<string>)
    requires ParseItems(s, before).Ok?
    ensures var p := ParseItems(s, before).value;
            && p.value.Array? && |parts| > 0 && |p.value.items| == |before| + |parts| && before <= p.value.items
            && s == Joined(parts) + ("]" + p.rest)
            && forall i :: 0 <= i < |parts| ==> Reads(parts[i], p.value.items[|before| + i], false)
    decreases |s|, 2
  {
    hide Reads, ParseValue, Joined;
    var part := ValueReads(s);
    var v := ParseValue(s).value;
    var more := before + [v.value];
    if Starts(v.rest, ']') {
      parts := [part];
      assert Joined(parts) == part by {
        OnePart(part);
      }
      assert v.rest == "]" + v.rest[1..];
    } else {
      var parts' := ItemsRead(v.rest[1..], more);
      parts := [part] + parts';
      assert v.rest == "," + v.rest[1..];
      PartInFront(part, parts', "]" + ParseItems(s, before).value.rest);
      var items := ParseItems(s, before).value.value.items;
      assert items[|before|] == more[|before|];
      assert before <= more <= items;
    }
  }

  lemma {:induction false} TableTurn(s: string)
    requires ParseTable(s).Ok?
    ensures ParseKeys(s, []).Ok? && ParseTable(s) == ParseRows(ParseKeys(s, []).value.rest, ParseKeys(s, []).value.value, [])
    ensures |ParseKeys(s, []).value.rest| < |s| && Distinct([])
  {
  }

  lemma {:induction false} TableReads(s: string) returns (t: string)
    requires ParseTable(s).Ok?
    ensures "[" + s == t + ParseTable(s).value.rest && Reads(t, ParseTable(s).value.value, false)
    decreases |s|, 3
  {
    hide *;
    var p := ParseTable(s).value;
    TableTurn(s);
    var k := ParseKeys(s, []).value;
    var keys := KeysRead(s, []);
    assert [] + keys == keys;
    var rows := RowsRead(k.rest, keys, []);
    t := "[" + (Joined(keys) + (RowsText(rows) + "]"));
    assert s == Joined(keys) + (RowsText(rows) + ("]" + p.rest));
    Regroup3(RowsText(rows), "]", p.rest);
    Regroup4("[", Joined(keys), RowsText(rows) + "]", p.rest);
    KeysAreKeys(keys);
    TableIsRead(p.value, keys, rows);
  }

  lemma {:induction false} KeysArePlain(keys: seq<string>)
    requires AreKeys(keys)
    ensures |keys| > 0 && Distinct(keys) && forall i :: 0 <= i < |keys| ==> IsPlainKey(keys[i])
  {
  }

  lemma {:induction false} KeysAreKeys(keys: seq<string>)
    requires |keys| > 0 && Distinct(keys) && forall i :: 0 <= i < |keys| ==> IsPlainKey(keys[i])
    ensures AreKeys(keys)
  {
  }

  lemma {:induction false} RowIsRow(s: string, v: Value, keys: seq<string>, cells: seq<string>)
    requires RowReads(v, keys, cells, false) && |Joined(cells)| < |s|
    ensures IsRow(s, v, false, keys, cells)
  {
    hide Reads;
    forall i | 0 <= i < |keys| ensures |cells[i]| < |s| {
      PartIsNoLonger(cells, i);
    }
  }

  lemma {:induction false} TableIsRead(v: Value, keys: seq<string>, rows: seq<seq<string>>)
    requires v.Array? && AreKeys(keys) && |rows| == |v.items| > 0
    requires forall r :: 0 <= r < |rows| ==> RowReads(v.items[r], keys, rows[r], false)
    ensures Reads("[" + (Joined(keys) + (RowsText(rows) + "]")), v, false)
  {
    var s := "[" + (Joined(keys) + (RowsText(rows) + "]"));
    assert IsTable(s, v.items, false, keys, rows) by {
      hide RowReads, IsRow, AreKeys, Joined, RowsText;
      forall r | 0 <= r < |rows| ensures IsRow(s, v.items[r], false, keys, rows[r]) {
        RowIsShorter(rows, r);
        RowIsRow(s, v.items[r], keys, rows[r]);
      }
    }
    hide IsTable, IsBare, IsQuoted, IsList, IsObject, Joined, RowsText;
  }

  lemma {:induction false} KeysRead(s: string, before: seq<string>) returns (keys: seq<string>)
    requires ParseKeys(s, before).Ok? && Distinct(before)
    ensures var p := ParseKeys(s, before).value;
            && |keys| > 0 && p.value == before + keys && s == Joined(keys) + ("|" + p.rest)
            && Distinct(p.value) && forall i :: 0 <= i < |keys| ==> IsPlainKey(keys[i])
    decreases |s|
  {
    hide ParseKey, IsPlainKey, Joined;
    var key := ParseKey(s, {',', '|'}).value;
    KeyIsPlain(s, {',', '|'});
    var more := before + [key.value];
    if Starts(key.rest, '|') {
      keys := [key.value];
      OnePart(key.value);
    } else {
      var keys' := KeysRead(key.rest[1..], more);
      keys := [key.value] + keys';
      assert key.rest[0] == ',';
      PartInFront(key.value, keys', "|" + ParseKeys(s, before).value.rest);
      assert before + keys == more + keys';
    }
  }

  /** The cells stand for the fields of the row. */
  ghost predicate RowReads(v: Value, keys: seq<string>, cells: seq<string>, plain: bool) {
    && v.Object? && v.fields.Keys == KeySet(keys) && |cells| == |keys|
    && forall i :: 0 <= i < |keys| ==> keys[i] in v.fields && Reads(cells[i], v.fields[keys[i]], plain)
  }

  lemma {:induction false} RowsRead(s: string, keys: seq<string>, before: seq<Value>) returns (rows: seq<seq<string>>)
    requires |keys| > 0 && Distinct(keys) && ParseRows(s, keys, before).Ok?
    ensures var p := ParseRows(s, keys, before).value;
            && p.value.Array? && |rows| > 0 && |p.value.items| == |before| + |rows| && before <= p.value.items
            && "|" + s == RowsText(rows) + ("]" + p.rest)
            && forall r :: 0 <= r < |rows| ==> RowReads(p.value.items[|before| + r], keys, rows[r], false)
    decreases |s|, 3
  {
    hide RowReads, ParseCells, RowsText, Joined;
    var cells := CellsRead(s, keys, map[]);
    var row := ParseCells(s, keys, map[]).value;
    assert RowReads(Object(row.value), keys, cells, false) by {
      FirstRow(s, keys, cells);
    }
    var more := before + [Object(row.value)];
    if Starts(row.rest, ']') {
      rows := [cells];
      assert row.rest == "]" + row.rest[1..];
      RowInFront(cells, [], row.rest);
      NoRows();
    } else {
      var rows' := RowsRead(row.rest[1..], keys, more);
      rows := [cells] + rows';
      assert row.rest == "|" + row.rest[1..];
      RowInFront(cells, rows', "]" + ParseRows(s, keys, before).value.rest);
      var items := ParseRows(s, keys, before).value.value.items;
      assert items[|before|] == more[|before|];
      assert before <= more <= items;
    }
  }

  lemma {:induction false} FirstRow(s: string, keys: seq<string>, cells: seq<string>)
    requires |keys| > 0 && |cells| == |keys| && ParseCells(s, keys, map[]).Ok?
    requires var row := ParseCells(s, keys, map[]).value.value;
             && row.Keys == KeySet(keys)
             && forall i :: 0 <= i < |keys| ==> keys[i] in row && Reads(cells[i], row[keys[i]], false)
    ensures RowReads(Object(ParseCells(s, keys, map[]).value.value), keys, cells, false)
  {
  }

  lemma {:induction false} CellsRead(s: string, keys: seq<string>, before: map<string, Value>) returns (cells: seq<string>)
    requires |keys| > 0 && Distinct(keys) && ParseCells(s, keys, before).Ok?
    ensures var p := ParseCells(s, keys, before).value;
            && |cells| == |keys| && s == Joined(cells) + p.rest && p.value.Keys == before.Keys + KeySet(keys)
            && (forall k :: k in before && k !in keys ==> p.value[k] == before[k])
            && forall i :: 0 <= i < |keys| ==> keys[i] in p.value && Reads(cells[i], p.value[keys[i]], false)
    decreases |s|, 2
  {
    hide Reads, ParseValue, Joined;
    var cell := ValueReads(s);
    var v := ParseValue(s).value;
    var more := before[keys[0] := v.value];
    assert keys == [keys[0]] + keys[1..];
    if |keys| == 1 {
      cells := [cell];
      OnePart(cell);
    } else {
      DistinctTail(keys);
      var cells' := CellsRead(v.rest[1..], keys[1..], more);
      cells := [cell] + cells';
      assert v.rest == "," + v.rest[1..];
      PartInFront(cell, cells', ParseCells(s, keys, before).value.rest);
    }
  }

  /** Whatever is decoded is the value that the text behind the tilde stands for. */
  lemma {:induction false} DecodedIsRead(s: string)
    requires Decode(s).Ok?
    ensures s[0] == '~' && Reads(s[1..], Decode(s).value, false)
  {
    hide ParseValue, Reads;
    var t := ValueReads(s[1..]);
    assert t + "" == t;
  }

  // ----- Nothing in the grammar shows a bar -----

  lemma {:induction false} LiteralEnds(items: seq<Item>, rest: string)
    requires AllItems(items)
    ensures QuotedLength(ItemsText(items) + ("\"" + rest), false) == Some(|ItemsText(items)| + 1)
  {
    hide QuotedLength;
    if |items| == 0 {
      EmptyConcat(ItemsText(items), "\"" + rest);
      ClosingQuote(rest);
    } else {
      var tail := ItemsText(items[1..]) + ("\"" + rest);
      LiteralEnds(items[1..], rest);
      Regroup3(ItemText(items[0]), ItemsText(items[1..]), "\"" + rest);
      assert IsItem(items[0]);
      match items[0]
      case Raw(c) => QuotedSkips(c, tail);
      case Short(letter) => QuotedSkipsPair(letter, tail);
      case Unit(a, b, c, d) => QuotedSkipsHex(a, b, c, d, tail);
    }
  }

  lemma {:induction false} LiteralParses(items: seq<Item>, rest: string)
    requires AllItems(items)
    ensures ParseValue("\"" + (ItemsText(items) + "\"") + rest) == Ok(Parsed(Str(ItemsValue(items)), rest))
    ensures forall depth: nat :: PipeAt("\"" + (ItemsText(items) + "\"") + rest, depth, false, false) == PipeAt(rest, depth, false, false)
  {
    hide QuotedLength, Unescape, ItemsValue;
    var t := "\"" + (ItemsText(items) + "\"");
    var s := t + rest;
    LiteralEnds(items, rest);
    assert s[1..] == ItemsText(items) + ("\"" + rest);
    assert s[..|t|] == t && s[|t|..] == rest && t[1..|t| - 1] == ItemsText(items);
    LiteralsAreRead(ItemsText(items));
    forall depth: nat ensures PipeAt(s, depth, false, false) == PipeAt(rest, depth, false, false) {
      PipeSkipsString(s[1..], |ItemsText(items)| + 1, depth, false);
      assert s[1..][|ItemsText(items)| + 1..] == rest;
    }
  }

  lemma {:induction false} BareParses(s: string, v: Value, rest: string)
    requires IsBare(s, v, true) && Follows(rest)
    ensures ParseValue(s + rest) == Ok(Parsed(v, rest)) && PlainText(s)
  {
    hide ParseNumber, IsLiteral, ParseValue, IsSpace, IsWhite;
    WhiteSpace(s);
    assert forall i :: 0 <= i < |s| ==> IsBareChar(s[i]);
    UnspacedNumber(s);
    AtomParses(s, rest);
  }

  lemma {:induction false} PlainKeyIsSafe(key: string)
    requires IsPlainKey(key)
    ensures SafeKey(key) && PlainText(key)
  {
  }

  ghost function ValuesOf(v: Value, keys: seq<string>): (values: seq<Value>)
    requires v.Object? && forall i :: 0 <= i < |keys| ==> keys[i] in v.fields
    ensures |values| == |keys|
  {
    seq(|keys|, i requires 0 <= i < |keys| => v.fields[keys[i]])
  }

  ghost predicate AllRead(parts: seq<string>, values: seq<Value>) {
    |parts| == |values| && forall i :: 0 <= i < |parts| ==> Reads(parts[i], values[i], true)
  }

  lemma {:induction false} TailIsRead(parts: seq<string>, values: seq<Value>)
    requires AllRead(parts, values) && |parts| > 0
    ensures Reads(parts[0], values[0], true) && AllRead(parts[1..], values[1..])
  {
    hide Reads;
  }

  datatype How =
    | Bare
    | Quote(items: seq<Item>)
    | Fields(keys: seq<string>, parts: seq<string>)
    | Items(parts: seq<string>)
    | Rows(keys: seq<string>, rows: seq<seq<string>>)

  /** How a text stands for a value, with everything inside it shorter. */
  ghost predicate IsHow(t: string, v: Value, how: How) {
    match how
    case Bare => IsBare(t, v, true)
    case Quote(items) => AllItems(items) && t == "\"" + (ItemsText(items) + "\"") && v == Str(ItemsValue(items))
    case Fields(keys, parts) =>
      && AreKeys(keys) && |parts| == |keys| && t == "{" + (FieldsText(keys, parts) + "}")
      && v.Object? && v.fields.Keys == KeySet(keys) && (forall i :: 0 <= i < |keys| ==> keys[i] in v.fields)
      && AllRead(parts, ValuesOf(v, keys))
    case Items(parts) => |parts| > 0 && t == "[" + (Joined(parts) + "]") && v.Array? && AllRead(parts, v.items)
    case Rows(keys, rows) =>
      && AreKeys(keys) && v.Array? && |rows| == |v.items| > 0 && t == "[" + (Joined(keys) + (RowsText(rows) + "]"))
      && forall r :: 0 <= r < |rows| ==> RowReads(v.items[r], keys, rows[r], true)
  }

  lemma {:induction false} HowRead(t: string, v: Value) returns (how: How)
    requires Reads(t, v, true)
    ensures IsHow(t, v, how)
    ensures how.Fields? ==> |FieldsText(how.keys, how.parts)| < |t|
    ensures how.Items? ==> |Joined(how.parts)| < |t|
    ensures how.Rows? ==> |RowsText(how.rows)| < |t|
  {
    if IsBare(t, v, true) {
      how := Bare;
    } else if IsQuoted(t, v) {
      var items :| AllItems(items) && t == "\"" + (ItemsText(items) + "\"") && v == Str(ItemsValue(items));
      how := Quote(items);
    } else if v.Object? {
      var keys, parts :| IsObject(t, v.fields, true, keys, parts);
      how := Fields(keys, parts);
      ObjectIsHow(t, v, keys, parts);
    } else if parts :| IsList(t, v.items, true, parts) {
      how := Items(parts);
      ListIsHow(t, v, parts);
    } else {
      var keys, rows :| IsTable(t, v.items, true, keys, rows);
      how := Rows(keys, rows);
      TableIsHow(t, v, keys, rows);
    }
    hide *;
  }

  lemma {:induction false} ObjectIsHow(t: string, v: Value, keys: seq<string>, parts: seq<string>)
    requires v.Object? && IsObject(t, v.fields, true, keys, parts)
    ensures IsHow(t, v, Fields(keys, parts)) && |FieldsText(keys, parts)| < |t|
  {
    hide Reads, AreKeys, FieldsText;
  }

  lemma {:induction false} ListIsHow(t: string, v: Value, parts: seq<string>)
    requires v.Array? && IsList(t, v.items, true, parts)
    ensures IsHow(t, v, Items(parts)) && |Joined(parts)| < |t|
  {
    hide Reads, Joined;
  }

  lemma {:induction false} TableIsHow(t: string, v: Value, keys: seq<string>, rows: seq<seq<string>>)
    requires v.Array? && IsTable(t, v.items, true, keys, rows)
    ensures IsHow(t, v, Rows(keys, rows)) && |RowsText(rows)| < |t|
  {
    hide Reads, Joined, AreKeys, RowsText;
    forall r | 0 <= r < |rows| ensures RowReads(v.items[r], keys, rows[r], true) {
      assert IsRow(t, v.items[r], true, keys, rows[r]);
    }
  }

  lemma {:induction false} SkipsBrackets(open: char, text: string, close: char, depth: nat, rest: string)
    requires (open == '{' && close == '}') || (open == '[' && close == ']')
    requires PipeAt(text + ([close] + rest), depth + 1, false, false) == PipeAt([close] + rest, depth + 1, false, false)
    ensures PipeAt([open] + (text + [close]) + rest, depth, false, false) == PipeAt(rest, depth, false, false)
  {
    Regroup3(text, [close], rest);
    Regroup3([open], text + [close], rest);
    Unwrap(open, text + ([close] + rest));
    Unwrap(close, rest);
  }

  /** To the search for a bar the text of a value is as if it were not there. */
  lemma {:induction false} SkipsText(t: string, v: Value, depth: nat, rest: string)
    requires Reads(t, v, true)
    ensures PipeAt(t + rest, depth, false, false) == PipeAt(rest, depth, false, false)
    decreases |t|, 1
  {
    hide Reads, IsBare, PipeAt, FieldsText, Joined, RowsText, AllRead, RowReads, AreKeys, ValuesOf, ParseValue, ItemsText, AllItems;
    var how := HowRead(t, v);
    match how
    case Bare =>
      BareParses(t, v, "");
      PipeSkipsPlainAt(t, depth, rest);
    case Quote(items) =>
      LiteralParses(items, rest);
    case Fields(keys, parts) =>
      KeysArePlain(keys);
      SkipsFields(keys, parts, ValuesOf(v, keys), depth + 1, "}" + rest);
      SkipsBrackets('{', FieldsText(keys, parts), '}', depth, rest);
    case Items(parts) =>
      SkipsParts(parts, v.items, depth + 1, "]" + rest);
      SkipsBrackets('[', Joined(parts), ']', depth, rest);
    case Rows(keys, rows) =>
      SkipsTable(keys, rows, v.items, depth + 1, "]" + rest);
      SkipsBrackets('[', Joined(keys) + RowsText(rows), ']', depth, rest);
      Regroup3(Joined(keys), RowsText(rows), "]");
  }

  lemma {:induction false} SkipsParts(parts: seq<string>, values: seq<Value>, depth: nat, rest: string)
    requires AllRead(parts, values)
    ensures PipeAt(Joined(parts) + rest, depth, false, false) == PipeAt(rest, depth, false, false)
    decreases |Joined(parts)|, 2, |parts|
  {
    if |parts| == 0 {
      EmptyConcat(Joined(parts), rest);
    } else {
      TailIsRead(parts, values);
      PartIsNoLonger(parts, 0);
      if |parts| == 1 {
        SkipsText(parts[0], values[0], depth, rest);
      } else {
        var more := Joined(parts[1..]);
        assert Joined(parts) == parts[0] + ("," + more);
        hide *;
        SkipsText(parts[0], values[0], depth, "," + (more + rest));
        CommaIsPlain();
        PipeSkipsPlainAt(",", depth, more + rest);
        SkipsParts(parts[1..], values[1..], depth, rest);
        Regroup3(parts[0], "," + more, rest);
        Regroup3(",", more, rest);
      }
    }
  }

  lemma {:induction false} CommaIsPlain()
    ensures PlainText(",") && PlainText(";") && PlainText(":")
  {
  }

  lemma {:induction false} SkipsFields(keys: seq<string>, parts: seq<string>, values: seq<Value>, depth: nat, rest: string)
    requires |keys| == |parts| && (forall i :: 0 <= i < |keys| ==> IsPlainKey(keys[i])) && AllRead(parts, values)
    ensures PipeAt(FieldsText(keys, parts) + rest, depth, false, false) == PipeAt(rest, depth, false, false)
    decreases |FieldsText(keys, parts)|, 2, |keys|
  {
    if |keys| == 0 {
      EmptyConcat(FieldsText(keys, parts), rest);
    } else {
      TailIsRead(parts, values);
      PlainKeyIsSafe(keys[0]);
      CommaIsPlain();
      PartIsShorter(keys, parts, 0);
      var key, part := keys[0], parts[0];
      if |keys| == 1 {
        assert FieldsText(keys, parts) == key + (":" + part);
        hide *;
        SkipsText(part, values[0], depth, rest);
        PipeSkipsPlainAt(":", depth, part + rest);
        PipeSkipsPlainAt(key, depth, ":" + (part + rest));
        Regroup4(key, ":", part, rest);
        Regroup3(key, ":", part);
      } else {
        var more := FieldsText(keys[1..], parts[1..]);
        FieldInFront(key, part, keys[1..], parts[1..], rest);
        assert [key] + keys[1..] == keys && [part] + parts[1..] == parts;
        assert |more| < |FieldsText(keys, parts)|;
        hide *;
        SkipsFields(keys[1..], parts[1..], values[1..], depth, rest);
        PipeSkipsPlainAt(";", depth, more + rest);
        SkipsText(part, values[0], depth, ";" + (more + rest));
        PipeSkipsPlainAt(":", depth, part + (";" + (more + rest)));
        PipeSkipsPlainAt(key, depth, ":" + (part + (";" + (more + rest))));
      }
    }
  }

  lemma {:induction false} JoinedIsPlain(keys: seq<string>)
    requires forall i :: 0 <= i < |keys| ==> IsPlainKey(keys[i])
    ensures PlainText(Joined(keys))
  {
    hide IsPlainKey;
    if |keys| > 0 {
      PlainKeyIsSafe(keys[0]);
      JoinedIsPlain(keys[1..]);
    }
  }

  lemma {:induction false} SkipsTable(keys: seq<string>, rows: seq<seq<string>>, values: seq<Value>, depth: nat, rest: string)
    requires AreKeys(keys) && depth > 0 && |rows| == |values| && forall r :: 0 <= r < |rows| ==> RowReads(values[r], keys, rows[r], true)
    ensures PipeAt(Joined(keys) + RowsText(rows) + rest, depth, false, false) == PipeAt(rest, depth, false, false)
    decreases |RowsText(rows)|, 4
  {
    JoinedIsPlain(keys);
    hide *;
    PipeSkipsPlainAt(Joined(keys), depth, RowsText(rows) + rest);
    SkipsRows(keys, rows, values, depth, rest);
    Regroup3(Joined(keys), RowsText(rows), rest);
  }

  lemma {:induction false} SkipsRows(keys: seq<string>, rows: seq<seq<string>>, values: seq<Value>, depth: nat, rest: string)
    requires depth > 0 && |rows| == |values| && forall r :: 0 <= r < |rows| ==> RowReads(values[r], keys, rows[r], true)
    ensures PipeAt(RowsText(rows) + rest, depth, false, false) == PipeAt(rest, depth, false, false)
    decreases |RowsText(rows)|, 3
  {
    if |rows| == 0 {
      EmptyConcat(RowsText(rows), rest);
    } else {
      RowInFront(rows[0], rows[1..], rest);
      assert [rows[0]] + rows[1..] == rows;
      RowIsShorter(rows, 0);
      assert |RowsText(rows[1..])| < |RowsText(rows)|;
      var cells, more := Joined(rows[0]), RowsText(rows[1..]) + rest;
      RowIsAllRead(values[0], keys, rows[0]);
      Unwrap('|', cells + more);
      assert PipeAt("|" + (cells + more), depth, false, false) == PipeAt(cells + more, depth, false, false);
      hide *;
      SkipsParts(rows[0], ValuesOf(values[0], keys), depth, more);
      SkipsRows(keys, rows[1..], values[1..], depth, rest);
    }
  }

  lemma {:induction false} RowIsAllRead(v: Value, keys: seq<string>, cells: seq<string>)
    requires RowReads(v, keys, cells, true)
    ensures v.Object? && (forall i :: 0 <= i < |keys| ==> keys[i] in v.fields) && AllRead(cells, ValuesOf(v, keys))
  {
    hide Reads;
  }

  // ----- What is in the grammar is accepted -----

  lemma {:induction false} StartsWell(t: string, v: Value)
    requires Reads(t, v, true)
    ensures t != "" && t[0] != ']'
  {
    hide IsObject, IsList, IsTable;
    if IsBare(t, v, true) {
      assert IsBareChar(t[0]);
    } else if !IsQuoted(t, v) {
      StartsWithBracket(t, v);
    }
  }

  lemma {:induction false} StartsWithBracket(t: string, v: Value)
    requires Reads(t, v, true) && !IsBare(t, v, true) && !IsQuoted(t, v)
    ensures t != "" && (t[0] == '{' || t[0] == '[')
  {
    var how := HowRead(t, v);
    match how
    case Fields(keys, parts) => assert t[0] == '{';
    case Items(parts) => assert t[0] == '[';
    case Rows(keys, rows) => assert t[0] == '[';
    case _ =>
  }

  lemma {:induction false} TextParses(t: string, v: Value, rest: string)
    requires Reads(t, v, true) && Follows(rest)
    ensures ParseValue(t + rest) == Ok(Parsed(v, rest))
    decreases |t|, 1
  {
    hide Reads, IsBare, PipeAt, FieldsText, Joined, RowsText, AllRead, RowReads, AreKeys, ValuesOf, ParseValue, ItemsText, AllItems, Follows;
    var how := HowRead(t, v);
    match how
    case Bare => BareParses(t, v, rest);
    case Quote(items) => LiteralParses(items, rest);
    case Fields(keys, parts) => ObjectTextParses(keys, parts, v, rest);
    case Items(parts) => ListTextParses(parts, v, rest);
    case Rows(keys, rows) => TableTextParses(keys, rows, v, rest);
  }

  lemma {:induction false} ObjectTextParses(keys: seq<string>, parts: seq<string>, v: Value, rest: string)
    requires AreKeys(keys) && |parts| == |keys| && v.Object? && v.fields.Keys == KeySet(keys)
    requires (forall i :: 0 <= i < |keys| ==> keys[i] in v.fields) && AllRead(parts, ValuesOf(v, keys))
    ensures ParseValue("{" + (FieldsText(keys, parts) + "}") + rest) == Ok(Parsed(v, rest))
    decreases |FieldsText(keys, parts)|, 4
  {
    var text := FieldsText(keys, parts) + ("}" + rest);
    assert text[0] == keys[0][0] && text[0] != '}' by {
      PlainKeyIsSafe(keys[0]);
    }
    hide AllRead, FieldsText, ParseFields, Reads, AreKeys;
    KeysArePlain(keys);
    AddAllFields(v, keys);
    FieldsTextParse(keys, parts, v, map[], rest);
    Regroup4("{", FieldsText(keys, parts), "}", rest);
    Regroup3("{", FieldsText(keys, parts), "}");
    Unwrap('{', text);
  }

  lemma {:induction false} FieldsTextParse(keys: seq<string>, parts: seq<string>, v: Value, before: map<string, Value>, rest: string)
    requires |keys| == |parts| > 0 && v.Object? && (forall k :: k in keys ==> k in v.fields && k !in before)
    requires Distinct(keys) && (forall i :: 0 <= i < |keys| ==> IsPlainKey(keys[i])) && AllRead(parts, ValuesOf(v, keys))
    ensures ParseFields(FieldsText(keys, parts) + ("}" + rest), before) == Ok(Parsed(Object(AddFields(before, v, keys)), rest))
    decreases |FieldsText(keys, parts)|, 2
  {
    hide ParseFields, ParseValue, Reads, AllRead, IsPlainKey, FieldsText;
    var key, part, value := keys[0], parts[0], v.fields[keys[0]];
    TailIsRead(parts, ValuesOf(v, keys));
    PlainKeyIsSafe(key);
    PartIsShorter(keys, parts, 0);
    var end := "}" + rest;
    Unwrap('}', rest);
    if |keys| == 1 {
      assert keys == [key] && parts == [part];
      OneField(key, part, end);
      TextParses(part, value, end);
      FieldStep(key, part, value, end, before);
      OneAdded(before, v, keys);
    } else {
      var keys', parts' := keys[1..], parts[1..];
      var more := FieldsText(keys', parts') + end;
      var tail := ";" + more;
      assert [key] + keys' == keys && [part] + parts' == parts;
      FieldInFront(key, part, keys', parts', end);
      FieldsAreShorter(keys, parts);
      TextParses(part, value, tail);
      FieldStep(key, part, value, tail, before);
      Unwrap(';', more);
      DistinctTail(keys);
      assert ValuesOf(v, keys)[1..] == ValuesOf(v, keys');
      FieldsTextParse(keys', parts', v, before[key := value], rest);
      OneAdded(before, v, keys);
    }
  }

  lemma {:induction false} FieldsAreShorter(keys: seq<string>, parts: seq<string>)
    requires |keys| == |parts| > 0
    ensures |FieldsText(keys[1..], parts[1..])| < |FieldsText(keys, parts)|
  {
  }

  lemma {:induction false} OneAdded(before: map<string, Value>, v: Value, keys: seq<string>)
    requires v.Object? && |keys| > 0 && forall k :: k in keys ==> k in v.fields
    ensures AddFields(before, v, keys) == AddFields(before[keys[0] := v.fields[keys[0]]], v, keys[1..])
    ensures |keys| == 1 ==> AddFields(before, v, keys) == before[keys[0] := v.fields[keys[0]]]
  {
  }

  lemma {:induction false} ListTextParses(parts: seq<string>, v: Value, rest: string)
    requires |parts| > 0 && v.Array? && AllRead(parts, v.items)
    ensures ParseValue("[" + (Joined(parts) + "]") + rest) == Ok(Parsed(v, rest))
    decreases |Joined(parts)|, 4
  {
    var text := Joined(parts) + ("]" + rest);
    assert text[0] == parts[0][0] && text[0] != ']' by {
      TailIsRead(parts, v.items);
      StartsWell(parts[0], v.items[0]);
    }
    assert !HasTopLevelPipe(text) by {
      SkipsParts(parts, v.items, 0, "]" + rest);
    }
    hide AllRead, Joined, ParseItems, Reads, HasTopLevelPipe;
    ItemsTextParse(parts, v.items, [], rest);
    assert [] + v.items == v.items;
    Regroup4("[", Joined(parts), "]", rest);
    Regroup3("[", Joined(parts), "]");
    Unwrap('[', text);
  }

  lemma {:induction false} ItemsTextParse(parts: seq<string>, values: seq<Value>, before: seq<Value>, rest: string)
    requires |parts| > 0 && AllRead(parts, values)
    ensures ParseItems(Joined(parts) + ("]" + rest), before) == Ok(Parsed(Array(before + values), rest))
    decreases |Joined(parts)|, 2
  {
    hide ParseItems, ParseValue, Reads, Joined;
    TailIsRead(parts, values);
    PartIsNoLonger(parts, 0);
    hide AllRead;
    var part, end := parts[0], "]" + rest;
    Unwrap(']', rest);
    if |parts| == 1 {
      assert parts == [part] && [values[0]] == values;
      OnePart(part);
      TextParses(part, values[0], end);
      ItemStep(part, values[0], end, before);
    } else {
      var more := Joined(parts[1..]) + end;
      assert [part] + parts[1..] == parts;
      PartInFront(part, parts[1..], end);
      JoinedIsShorter(parts);
      TextParses(part, values[0], "," + more);
      ItemStep(part, values[0], "," + more, before);
      Unwrap(',', more);
      ItemsTextParse(parts[1..], values[1..], before + [values[0]], rest);
      assert before + [values[0]] + values[1..] == before + values;
    }
  }

  lemma {:induction false} JoinedIsShorter(parts: seq<string>)
    requires |parts| > 1
    ensures |Joined(parts[1..])| < |Joined(parts)| && |parts[0]| < |Joined(parts)|
  {
  }

  lemma {:induction false} CellsTextParse(cells: seq<string>, v: Value, keys: seq<string>, before: map<string, Value>, rest: string)
    requires |keys| == |cells| > 0 && v.Object? && (forall k :: k in keys ==> k in v.fields) && AllRead(cells, ValuesOf(v, keys))
    requires Follows(rest)
    ensures ParseCells(Joined(cells) + rest, keys, before) == Ok(Parsed(AddFields(before, v, keys), rest))
    decreases |Joined(cells)|, 2
  {
    hide ParseCells, ParseValue, Reads, Joined;
    TailIsRead(cells, ValuesOf(v, keys));
    PartIsNoLonger(cells, 0);
    hide AllRead;
    var key, cell, value := keys[0], cells[0], v.fields[keys[0]];
    OneAdded(before, v, keys);
    if |keys| == 1 {
      assert cells == [cell];
      OnePart(cell);
      TextParses(cell, value, rest);
      CellStep(cell, value, rest, keys, before);
    } else {
      var more := Joined(cells[1..]) + rest;
      assert [cell] + cells[1..] == cells;
      PartInFront(cell, cells[1..], rest);
      JoinedIsShorter(cells);
      TextParses(cell, value, "," + more);
      CellStep(cell, value, "," + more, keys, before);
      Unwrap(',', more);
      assert ValuesOf(v, keys)[1..] == ValuesOf(v, keys[1..]);
      CellsTextParse(cells[1..], v, keys[1..], before[key := value], rest);
    }
  }

  lemma {:induction false} RowTextParses(v: Value, keys: seq<string>, cells: seq<string>, rest: string)
    requires |keys| > 0 && RowReads(v, keys, cells, true) && Follows(rest)
    ensures v.Object? && ParseCells(Joined(cells) + rest, keys, map[]) == Ok(Parsed(v.fields, rest))
    decreases |Joined(cells)|, 3
  {
    RowIsAllRead(v, keys, cells);
    hide Reads, AllRead, ParseCells, Joined, Follows;
    AddAllFields(v, keys);
    CellsTextParse(cells, v, keys, map[], rest);
  }

  lemma {:induction false} RowTurn(cells: string, v: Value, more: string, keys: seq<string>, before: seq<Value>)
    requires |keys| > 0 && v.Object? && ParseCells(cells + more, keys, map[]) == Ok(Parsed(v.fields, more))
    ensures Starts(more, ']') ==> ParseRows(cells + more, keys, before) == Ok(Parsed(Array(before + [v]), more[1..]))
    ensures Starts(more, '|') ==> ParseRows(cells + more, keys, before) == ParseRows(more[1..], keys, before + [v])
  {
    hide ParseCells;
    RowStep(cells, v.fields, more, keys, before);
  }

  lemma {:induction false} DelimiterStarts(delimiter: char, rest: string)
    requires delimiter == '|' || delimiter == ']'
    ensures Starts([delimiter] + rest, delimiter) && ([delimiter] + rest)[1..] == rest
  {
  }

  lemma {:induction false} DelimiterFollows(s: string)
    requires Starts(s, '|') || Starts(s, ']')
    ensures Follows(s)
  {
  }

  lemma {:induction false} RowsAreShorter(rows: seq<seq<string>>)
    requires |rows| > 0
    ensures |RowsText(rows[1..])| < |RowsText(rows)| && (|rows| == 1 ==> RowsText(rows[1..]) == "")
  {
  }

  lemma {:induction false} RowsTextParse(rows: seq<seq<string>>, values: seq<Value>, keys: seq<string>, before: seq<Value>, rest: string)
    requires |keys| > 0 && |rows| == |values| > 0 && forall r :: 0 <= r < |rows| ==> RowReads(values[r], keys, rows[r], true)
    ensures var text := RowsText(rows) + ("]" + rest);
            Starts(text, '|') && ParseRows(text[1..], keys, before) == Ok(Parsed(Array(before + values), rest))
    decreases |RowsText(rows)|, 3
  {
    hide *;
    var end, rows' := "]" + rest, rows[1..];
    var cells, more := Joined(rows[0]), RowsText(rows') + end;
    assert [rows[0]] + rows' == rows;
    RowInFront(rows[0], rows', end);
    RowIsShorter(rows, 0);
    RowsAreShorter(rows);
    DelimiterStarts('|', cells + more);
    DelimiterStarts(']', rest);
    if |rows| == 1 {
      EmptyConcat(RowsText(rows'), end);
      assert [values[0]] == values;
    } else {
      RowsTextParse(rows', values[1..], keys, before + [values[0]], rest);
      assert before + [values[0]] + values[1..] == before + values;
    }
    DelimiterFollows(more);
    RowTextParses(values[0], keys, rows[0], more);
    RowTurn(cells, values[0], more, keys, before);
  }

  lemma {:induction false} KeysTextIs(keys: seq<string>)
    requires forall i :: 0 <= i < |keys| ==> IsPlainKey(keys[i])
    ensures Joined(keys) == JoinKeys(keys) && AllSafe(keys)
  {
    hide IsPlainKey, SafeKey;
    if |keys| > 0 {
      KeysTextIs(keys[1..]);
      PlainKeyIsSafe(keys[0]);
      assert forall i :: 0 < i < |keys| ==> keys[i] == keys[1..][i - 1];
    }
  }

  lemma {:induction false} KeyStarts(keys: seq<string>, rest: string)
    requires |keys| > 0 && IsPlainKey(keys[0])
    ensures !Starts(Joined(keys) + rest, ']')
  {
    assert (Joined(keys) + rest)[0] == keys[0][0];
  }

  lemma {:induction false} TableComes(text: string, keys: seq<string>, rows: string)
    requires !Starts(text, ']') && HasTopLevelPipe(text) && |keys| > 0 && ParseKeys(text, []) == Ok(Parsed(keys, rows))
    ensures ParseValue("[" + text) == ParseRows(rows, keys, [])
  {
    hide HasTopLevelPipe, ParseKeys, ParseRows;
    Unwrap('[', text);
  }

  lemma {:induction false} TableTextParses(keys: seq<string>, rows: seq<seq<string>>, v: Value, rest: string)
    requires AreKeys(keys) && v.Array? && |rows| == |v.items| > 0
    requires forall r :: 0 <= r < |rows| ==> RowReads(v.items[r], keys, rows[r], true)
    ensures ParseValue("[" + (Joined(keys) + (RowsText(rows) + "]")) + rest) == Ok(Parsed(v, rest))
    decreases |RowsText(rows)|, 4
  {
    hide *;
    var body := RowsText(rows) + ("]" + rest);
    KeysArePlain(keys);
    KeysTextIs(keys);
    KeyStarts(keys, body);
    RowsTextParse(rows, v.items, keys, [], rest);
    AllDistinct(keys);
    KeysParse(keys, [], body);
    TableHasPipe(keys, body);
    assert [] + v.items == v.items && [] + keys == keys;
    TableComes(Joined(keys) + body, keys, body[1..]);
    Regroup4("[", Joined(keys), RowsText(rows) + "]", rest);
    Regroup3("[", Joined(keys), RowsText(rows) + "]");
    Regroup3(RowsText(rows), "]", rest);
  }

  lemma {:induction false} AllDistinct(keys: seq<string>)
    requires Distinct(keys)
    ensures forall i, j :: 0 <= i < j < |keys| ==> keys[i] != keys[j]
  {
  }

  /** A text without stray quotes is decoded as the value it stands for. */
  lemma {:induction false} ReadIsDecoded(t: string, v: Value)
    requires Reads(t, v, true)
    ensures Decode("~" + t) == Ok(v)
  {
    hide ParseValue, Reads;
    TextParses(t, v, "");
    assert t + "" == t;
    Unwrap('~', t);
  }

  /** In particular it stands for one value only. */
  lemma {:induction false} ReadsAsOneValue(t: string, v: Value, w: Value)
    requires Reads(t, v, true) && Reads(t, w, true)
    ensures v == w
  {
    hide Reads, Decode;
    ReadIsDecoded(t, v);
    ReadIsDecoded(t, w);
  }

  lemma {:induction false} BareWithQuote()
    ensures Reads("a\"", Str("a\""), false)
  {
    var s := "a\"";
    NumbersAreLiterals(s);
    assert !IsNumber(s);
    hide IsLiteral;
    assert IsBare(s, Str(s), false);
  }

  lemma {:induction false} LiteralWithBar()
    ensures Reads("\"x|y\"", Str("x|y"), false)
  {
    var items := [Raw('x'), Raw('|'), Raw('y')];
    assert items[1..] == [Raw('|'), Raw('y')] && items[1..][1..] == [Raw('y')] && items[1..][1..][1..] == [];
    assert ItemsText([Raw('y')]) == "y" && ItemsText([Raw('|'), Raw('y')]) == "|y" && ItemsText(items) == "x|y";
    assert ItemsValue([Raw('y')]) == "y" && ItemsValue([Raw('|'), Raw('y')]) == "|y" && ItemsValue(items) == "x|y";
    assert "\"x|y\"" == "\"" + (ItemsText(items) + "\"");
    assert IsQuoted("\"x|y\"", Str("x|y"));
  }

  /** The text in between: a list of two strings, the first with a quote in it, which is taken for a table. */
  lemma {:induction false} StrayQuoteMisleads()
    ensures Reads("[a\",\"x|y\"]", Array([Str("a\""), Str("x|y")]), false)
    ensures Decode("~[a\",\"x|y\"]") == Err(UnsafeKey("a\""))
  {
    assert Reads("[a\",\"x|y\"]", Array([Str("a\""), Str("x|y")]), false) by {
      hide Reads;
      BareWithQuote();
      LiteralWithBar();
      var parts, v := ["a\"", "\"x|y\""], Array([Str("a\""), Str("x|y")]);
      assert parts[1..] == ["\"x|y\""];
      assert "[" + (Joined(parts) + "]") == "[a\",\"x|y\"]";
      ListIsRead(v, parts);
    }
    hide Reads;
    QuoteIsMisled();
  }

  lemma {:induction false} QuoteShowsBar()
    ensures HasTopLevelPipe("a\",\"x|y\"]")
  {
    var s := "a\",\"x|y\"]";
    assert s[1..] == "\",\"x|y\"]" && s[1..][1..] == ",\"x|y\"]" && s[1..][1..][1..] == "\"x|y\"]";
    assert "x|y\"]"[1..] == "|y\"]" && "\"x|y\"]"[1..] == "x|y\"]";
    assert PipeAt("x|y\"]", 0, false, false);
  }

  lemma {:induction false} QuoteIsNoKey()
    ensures ParseKey("a\",\"x|y\"]", {',', '|'}) == Err(UnsafeKey("a\""))
  {
    var s := "a\",\"x|y\"]";
    assert FindTerminator(s, {',', '|'}) == 2;
    assert s[..2] == "a\"" && !SafeKey("a\"");
  }

  lemma {:induction false} QuoteIsMisled()
    ensures Decode("~[a\",\"x|y\"]") == Err(UnsafeKey("a\""))
  {
    hide HasTopLevelPipe, ParseKey;
    var s := "a\",\"x|y\"]";
    QuoteShowsBar();
    QuoteIsNoKey();
    assert ("~[" + s)[1..] == "[" + s && ("[" + s)[1..] == s;
    assert "~[" + s == "~[a\",\"x|y\"]";
  }
}
