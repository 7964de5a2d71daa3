/** Many sections read in pages: a shared byte budget, and a cursor to the section and byte where the next page goes on. */
module BatchRead {
  import opened Text
  import opened Utf8

  const READ_BUDGET: nat := 128 * 1024

  datatype Cursor = Cursor(item: int, byte: int)

  datatype Error = InvalidCursor | CursorExceedsContent

  /** What a page carries of the sections, and where the next one starts. */
  datatype Page = Page(body: string, next: Option<Cursor>)

  /** `safeUTF8Boundary`. */
  function SafeBoundary(value: string, maximum: int): (k: nat)
    ensures k <= |value| && k <= Max(maximum, 0)
  {
    if maximum <= 0 then 0 else if maximum >= |value| then |value| else HeadCut(value, maximum)
  }

  method FindBoundary(value: string, maximum: int) returns (k: nat)
    ensures k == SafeBoundary(value, maximum)
  {
    if maximum <= 0 {
      return 0;
    }
    if maximum >= |value| {
      return |value|;
    }
    var cut := maximum;
    while cut > 0 && !RuneStart(value[cut])
      invariant 0 <= cut <= maximum && HeadCut(value, cut) == HeadCut(value, maximum)
    {
      cut := cut - 1;
    }
    return cut;
  }

  // ----- One page -----

  /** The page from byte start of section index on, with `built` written already. */
  function Fill(sections: seq<string>, index: nat, start: nat, built: string): Result<Page, Error>
    requires index <= |sections|
    decreases |sections| - index
  {
    if index == |sections| then Ok(Page(built, None))
    else if start > |sections[index]| then Err(CursorExceedsContent)
    else
      var section, remaining := sections[index][start..], READ_BUDGET - |built|;
      if |section| > remaining then
        var k := SafeBoundary(section, remaining);
        Ok(Page(built + section[..k], Some(Cursor(index, start + k))))
      else Fill(sections, index + 1, 0, built + section)
  }

  predicate ValidCursor(sections: seq<string>, cursor: Cursor) {
    0 <= cursor.item < |sections| && 0 <= cursor.byte
  }

  function PageAt(sections: seq<string>, cursor: Cursor): Result<Page, Error> {
    if ValidCursor(sections, cursor) then Fill(sections, cursor.item, cursor.byte, "") else Err(InvalidCursor)
  }

  method ReadItems(sections: seq<string>, cursor: Cursor) returns (r: Result<Page, Error>)
    ensures r == PageAt(sections, cursor)
  {
    if cursor.item < 0 || cursor.item >= |sections| || cursor.byte < 0 {
      return Err(InvalidCursor);
    }
    var built := "";
    for index := cursor.item to |sections|
      invariant PageAt(sections, cursor) == Fill(sections, index, if index == cursor.item then cursor.byte else 0, built)
    {
      var start := if index == cursor.item then cursor.byte else 0;
      if start > |sections[index]| {
        return Err(CursorExceedsContent);
      }
      var section := sections[index][start..];
      var remaining := READ_BUDGET - |built|;
      if |section| > remaining {
        var k := FindBoundary(section, remaining);
        if remaining > 0 {
          built := built + section[..k];
        }
        assert remaining <= 0 ==> k == 0 && built + section[..0] == built;
        return Ok(Page(built, Some(Cursor(index, start + k))));
      }
      built := built + section;
    }
    return Ok(Page(built, None));
  }

  // ----- What a page takes -----

  function Concat(sections: seq<string>): string {
    if |sections| == 0 then "" else sections[0] + Concat(sections[1..])
  }

  /** All that is still to come. */
  function Rest(sections: seq<string>, index: nat, start: nat): string
    requires index < |sections| ==> start <= |sections[index]|
  {
    if index >= |sections| then "" else sections[index][start..] + Concat(sections[index + 1..])
  }

  function RestOf(sections: seq<string>, next: Option<Cursor>): string
    requires next.Some? ==> InContent(sections, next.value)
  {
    if next.None? then "" else Rest(sections, next.value.item, next.value.byte)
  }

  predicate InContent(sections: seq<string>, cursor: Cursor) {
    0 <= cursor.item < |sections| && 0 <= cursor.byte <= |sections[cursor.item]|
  }

  lemma {:induction false} RestFromNext(sections: seq<string>, index: nat)
    requires index < |sections|
    ensures Rest(sections, index + 1, 0) == Concat(sections[index + 1..])
  {
    if index + 1 < |sections| {
      var tail := sections[index + 1..];
      assert tail[0] == sections[index + 1] && tail[1..] == sections[index + 2..];
      assert sections[index + 1][0..] == sections[index + 1];
    }
  }

  /** A page is exactly the next part of what is to come, within the budget; the cursor names what is left. */
  lemma {:induction false} FillTakesNext(sections: seq<string>, index: nat, start: nat, built: string)
    requires index <= |sections| && (index < |sections| ==> start <= |sections[index]|) && |built| <= READ_BUDGET
    ensures var page := Fill(sections, index, start, built);
            && page.Ok? && (page.value.next.Some? ==> InContent(sections, page.value.next.value))
            && page.value.body + RestOf(sections, page.value.next) == built + Rest(sections, index, start)
            && |page.value.body| <= READ_BUDGET
    decreases |sections| - index
  {
    hide Concat;
    if index < |sections| {
      var section, remaining := sections[index][start..], READ_BUDGET - |built|;
      var after := Concat(sections[index + 1..]);
      if |section| > remaining {
        var k := SafeBoundary(section, remaining);
        assert section == section[..k] + section[k..] && section[k..] == sections[index][start + k..];
        Regroup4(built, section[..k], section[k..], after);
        Regroup3(section[..k], section[k..], after);
        Regroup3(built, section[..k], section[k..] + after);
      } else {
        FillTakesNext(sections, index + 1, 0, built + section);
        RestFromNext(sections, index);
        Regroup3(built, section, after);
      }
    }
  }

  // ----- Progress -----

  predicate Later(a: Cursor, b: Cursor) {
    a.item < b.item || (a.item == b.item && a.byte < b.byte)
  }

  /** After the first section of a page, the cursor is in a later section. */
  lemma {:induction false} NextIsFurther(sections: seq<string>, index: nat, start: nat, built: string)
    requires index <= |sections|
    ensures var page := Fill(sections, index, start, built);
            page.Ok? && page.value.next.Some? ==> page.value.next.value.item >= index && page.value.next.value.byte >= 0
    decreases |sections| - index
  {
    if index < |sections| && start <= |sections[index]| && |sections[index][start..]| <= READ_BUDGET - |built| {
      NextIsFurther(sections, index + 1, 0, built + sections[index][start..]);
    }
  }

  /** A whole budget of bytes after the first that all continue a sequence. */
  predicate OnlyContinuations(s: string) {
    |s| > READ_BUDGET && forall i :: 0 < i <= READ_BUDGET ==> IsContinuation(s[i])
  }

  /** A page moves the cursor on, except in text with a whole budget of continuation bytes, which no valid text has. */
  lemma {:induction false} MovesOnUnless(sections: seq<string>, cursor: Cursor)
    requires InContent(sections, cursor) && PageAt(sections, cursor).Ok? && PageAt(sections, cursor).value.next.Some?
    ensures Later(cursor, PageAt(sections, cursor).value.next.value)
       <==> !OnlyContinuations(sections[cursor.item][cursor.byte..])
  {
    var section := sections[cursor.item][cursor.byte..];
    if |section| <= READ_BUDGET {
      assert "" + section == section;
      NextIsFurther(sections, cursor.item + 1, 0, section);
    } else {
      var k := SafeBoundary(section, READ_BUDGET);
      assert Fill(sections, cursor.item, cursor.byte, "").value.next == Some(Cursor(cursor.item, cursor.byte + k));
      if k > 0 {
        assert RuneStart(section[k]);
      }
    }
  }

  /** The case there is: one section of more than a budget of bytes that all continue a sequence is never left. */
  lemma {:induction false} ContinuationsStall(section: string)
    requires |section| > READ_BUDGET && forall i :: 0 <= i < |section| ==> section[i] == '\U{80}'
    ensures PageAt([section], Cursor(0, 0)) == Ok(Page("", Some(Cursor(0, 0))))
  {
    hide HeadCut;
    assert section[0..] == section;
    var k := SafeBoundary(section, READ_BUDGET);
    assert k > 0 ==> RuneStart(section[k]);
    assert "" + section[..0] == "";
  }

  lemma {:induction false} FourBytesAtMost(s: string)
    requires Valid(s) && |s| > 0
    ensures 0 < RuneLength(s) <= 4 && (|s| > RuneLength(s) ==> RuneStart(s[RuneLength(s)]))
  {
    var n := RuneLength(s);
    if |s| > n {
      assert RuneLength(s[n..]) > 0;
      RuneIsWhole(s[n..]);
      assert s[n..][0] == s[n];
    }
  }

  lemma {:induction false} ValidMovesOn(s: string)
    requires Valid(s)
    ensures !OnlyContinuations(s)
  {
    if |s| > READ_BUDGET {
      FourBytesAtMost(s);
    }
  }

  /** The cursor stands on a boundary of valid text. */
  predicate Good(sections: seq<string>, cursor: Cursor) {
    InContent(sections, cursor) && AllValid(sections) && Valid(sections[cursor.item][cursor.byte..])
  }

  lemma {:induction false} FillStaysGood(sections: seq<string>, index: nat, start: nat, built: string)
    requires index <= |sections| && AllValid(sections) && Valid(built)
    requires index < |sections| ==> start <= |sections[index]| && Valid(sections[index][start..])
    ensures var page := Fill(sections, index, start, built);
            page.Ok? ==> Valid(page.value.body) && (page.value.next.Some? ==> Good(sections, page.value.next.value))
    decreases |sections| - index
  {
    hide Valid, HeadCut;
    if index < |sections| {
      var section, remaining := sections[index][start..], READ_BUDGET - |built|;
      if |section| > remaining {
        var k := SafeBoundary(section, remaining);
        BoundaryIsOne(section, remaining);
        CutAtBoundary(section, k);
        ValidConcat(built, section[..k]);
        assert section[k..] == sections[index][start + k..];
      } else {
        ValidConcat(built, section);
        assert index + 1 < |sections| ==> sections[index + 1][0..] == sections[index + 1];
        FillStaysGood(sections, index + 1, 0, built + section);
      }
    }
  }

  lemma {:induction false} BoundaryIsOne(s: string, maximum: int)
    ensures Boundary(s, SafeBoundary(s, maximum))
  {
  }

  /** A page of valid sections is valid, and its cursor, if there is one, is later and good again. */
  lemma {:induction false} PageIsGood(sections: seq<string>, cursor: Cursor)
    requires Good(sections, cursor)
    ensures var page := PageAt(sections, cursor);
            && page.Ok? && Valid(page.value.body) && |page.value.body| <= 131072
            && (page.value.next.Some? ==> Good(sections, page.value.next.value) && Later(cursor, page.value.next.value))
            && page.value.body + RestOf(sections, page.value.next) == Rest(sections, cursor.item, cursor.byte)
  {
    hide Valid, Fill;
    AsciiIsValid("");
    FillTakesNext(sections, cursor.item, cursor.byte, "");
    FillStaysGood(sections, cursor.item, cursor.byte, "");
    ValidMovesOn(sections[cursor.item][cursor.byte..]);
    if PageAt(sections, cursor).value.next.Some? {
      MovesOnUnless(sections, cursor);
    }
    EmptyConcat("", Rest(sections, cursor.item, cursor.byte));
  }

  /** A cursor is refused exactly when it names no section, or a byte beyond its end. */
  lemma {:induction false} CursorsAreChecked(sections: seq<string>, cursor: Cursor)
    ensures var page := PageAt(sections, cursor);
            && (page == Err(InvalidCursor) <==> cursor.item < 0 || cursor.item >= |sections| || cursor.byte < 0)
            && (page == Err(CursorExceedsContent)
                <==> 0 <= cursor.item < |sections| && cursor.byte > |sections[cursor.item]|)
  {
    if ValidCursor(sections, cursor) && cursor.byte <= |sections[cursor.item]| {
      FillTakesNext(sections, cursor.item, cursor.byte, "");
    }
  }

  /** The bytes of a section that continue nothing, and its end. */
  predicate IsStop(section: string, b: nat) {
    b == |section| || (b < |section| && !('\U{80}' <= section[b] <= '\U{BF}'))
  }

  lemma {:induction false} FillIsFull(sections: seq<string>, index: nat, start: nat, built: string, b: nat)
    requires index <= |sections| && (index < |sections| ==> start <= |sections[index]|) && |built| <= READ_BUDGET
    ensures var page := Fill(sections, index, start, built);
            page.Ok? && page.value.next.Some? ==>
              var next := page.value.next.value;
              && 0 <= next.item < |sections| && next.byte >= 0
              && (IsStop(sections[next.item], b) && next.byte < b ==> |page.value.body| + (b - next.byte) > READ_BUDGET)
    decreases |sections| - index
  {
    if index < |sections| {
      var section, remaining := sections[index][start..], READ_BUDGET - |built|;
      if |section| <= remaining {
        FillIsFull(sections, index + 1, 0, built + section, b);
      } else if b >= start && remaining > 0 {
        assert b < |sections[index]| ==> section[b - start] == sections[index][b];
      }
    }
  }

  /** A page with a cursor is full: no later stop in the section where the cursor stands would fit the budget. */
  lemma {:induction false} PageIsFull(sections: seq<string>, cursor: Cursor, b: nat)
    requires InContent(sections, cursor)
    ensures var page := PageAt(sections, cursor);
            page.Ok? && page.value.next.Some? ==>
              var next := page.value.next.value;
              && 0 <= next.item < |sections|
              && (IsStop(sections[next.item], b) && next.byte < b ==> |page.value.body| + (b - next.byte) > 131072)
  {
    FillIsFull(sections, cursor.item, cursor.byte, "", b);
  }

  // ----- Following the cursors -----

  /** The bodies of all pages from a cursor on; that the recursion ends is that following the cursors does. */
  ghost function Pages(sections: seq<string>, cursor: Cursor): seq<string>
    requires Good(sections, cursor)
    decreases |sections| - cursor.item, |sections[cursor.item]| - cursor.byte
  {
    PageIsGood(sections, cursor);
    var page := PageAt(sections, cursor).value;
    [page.body] + if page.next.None? then [] else Pages(sections, page.next.value)
  }

  lemma {:induction false} PagesFrom(sections: seq<string>, cursor: Cursor)
    requires Good(sections, cursor)
    ensures Concat(Pages(sections, cursor)) == Rest(sections, cursor.item, cursor.byte)
    decreases |sections| - cursor.item, |sections[cursor.item]| - cursor.byte
  {
    hide Fill, Valid, Rest;
    PageIsGood(sections, cursor);
    var page := PageAt(sections, cursor).value;
    if page.next.None? {
      assert [page.body][1..] == [] && page.body + "" == page.body;
    } else {
      PagesFrom(sections, page.next.value);
      var rest := Pages(sections, page.next.value);
      assert ([page.body] + rest)[1..] == rest;
    }
  }

  /** Following the cursors from the start gives back exactly the sections, one after the other. */
  lemma {:induction false} PagesAreTheSections(sections: seq<string>)
    requires |sections| > 0 && AllValid(sections)
    ensures Good(sections, Cursor(0, 0)) && Concat(Pages(sections, Cursor(0, 0))) == Concat(sections)
  {
    assert sections[0][0..] == sections[0];
    PagesFrom(sections, Cursor(0, 0));
  }
}
