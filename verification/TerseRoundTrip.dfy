/** The promise of the terse codec: decoding a rendering gives back the value rendered. */
module TerseRoundTrip {
  import opened Text
  import opened KeyOrder
  import opened TerseEncode
  import opened TerseDecode
  import opened TerseReading

  // ----- The promise -----

  /** Inside a rendered array, whatever surrounds it, the search for a bar finds one exactly in tables. */
  lemma {:induction false} PipeMarksTables(v: Value, rest: string)
    requires v.Array? && WellFormed(v) && Render(v).Some?
    ensures Starts(Render(v).value, '[')
    ensures HasTopLevelPipe((Render(v).value + rest)[1..]) <==> v.items[0].Object?
  {
    if v.items[0].Object? {
      var keys := SortedKeys(v.items[0].fields.Keys);
      var rows := RenderRows(v, keys, 0).value + ("]" + rest);
      NonEmptyKeys(v.items[0].fields);
      TableBodyParses(v, keys, rest);
      TableHasPipe(keys, rows);
      TableText(JoinKeys(keys), RenderRows(v, keys, 0).value, rest);
      Unwrap('[', JoinKeys(keys) + rows);
    } else {
      var body := RenderItems(v, 0).value;
      ListHasNoPipe(v, 0, "]" + rest);
      Regroup4("[", body, "]", rest);
      Regroup3("[", body, "]");
      Unwrap('[', body + ("]" + rest));
    }
  }

  /** Decoding a rendering gives back the value rendered. */
  lemma {:induction false} RoundTrip(v: Value)
    requires WellFormed(v) && Render(v).Some?
    ensures Decode("~" + Render(v).value) == Ok(v)
  {
    var document := "~" + Render(v).value;
    ValueParses(v, "");
    assert Render(v).value + "" == Render(v).value;
    assert document[1..] == Render(v).value;
  }

  /** Hence no two values share a rendering. */
  lemma {:induction false} RenderIsInjective(v: Value, w: Value)
    requires WellFormed(v) && WellFormed(w)
    requires Render(v).Some? && Render(v) == Render(w)
    ensures v == w
  {
    RoundTrip(v);
    RoundTrip(w);
  }
}
