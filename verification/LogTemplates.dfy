/**
 Grouping the lines of a stream by template: what varies in a line is captured, what does not is the template, and
 every captured value stays traceable to the exact raw line.  Characters are bytes.
 */
module LogTemplates {
  import opened Text
  import opened Utf8
  import opened TerminalText
  import opened LineRanges
  import opened LineSets

  const SLOT: char := '\U{00}'
  const ARITY: char := '\U{01}'

  /**
   The two regular expressions, as functions: a line without its journald or time prefix, and the length of the
   varying token at the front of a text, zero if there is none.
   */
  datatype Scanner = Scanner(unprefixed: string -> string, token: string -> nat)

  /** A line as it is grouped. */
  function Body(scanner: Scanner, line: string): string {
    TrimSpace(scanner.unprefixed(line))
  }

  // ----- Templates -----

  function TokenLength(scanner: Scanner, s: string): nat {
    Min(scanner.token(s), |s|)
  }

  /** The tokens, from left to right, give way to marks and are kept. */
  function Templatize(scanner: Scanner, body: string): (string, seq<string>)
    decreases |body|
  {
    if |body| == 0 then ("", [])
    else
      var n := TokenLength(scanner, body);
      if n > 0 then
        var rest := Templatize(scanner, body[n..]);
        ([SLOT] + rest.0, [body[..n]] + rest.1)
      else
        var rest := Templatize(scanner, body[1..]);
        ([body[0]] + rest.0, rest.1)
  }

  /** `strings.Split(template, slotMark)`. */
  function SlotParts(template: string): (parts: seq<string>)
    ensures |parts| > 0
  {
    if |template| == 0 then [""]
    else
      var rest := SlotParts(template[1..]);
      if template[0] == SLOT then [""] + rest else [[template[0]] + rest[0]] + rest[1..]
  }

  /** The mark of a varying slot, before its number: a small black square, in UTF-8. */
  const HOLE := "\U{E2}\U{96}\U{AA}"

  /** What goes into the next gap; a gap without a slot of its own shows as hole number zero. */
  function NextValue(values: seq<string>): string {
    if |values| > 0 then values[0] else HOLE + "0"
  }

  function MoreValues(values: seq<string>): seq<string> {
    if |values| > 0 then values[1..] else []
  }

  /** The parts with a value between any two. */
  function Filled(parts: seq<string>, values: seq<string>): string
    requires |parts| > 0
  {
    if |parts| == 1 then parts[0] else parts[0] + (NextValue(values) + Filled(parts[1..], MoreValues(values)))
  }

  /** How many bytes outside all tokens look like the mark of a slot. */
  function StrayMarks(scanner: Scanner, body: string): nat
    decreases |body|
  {
    if |body| == 0 then 0
    else
      var n := TokenLength(scanner, body);
      if n > 0 then StrayMarks(scanner, body[n..])
      else (if body[0] == '\U{00}' then 1 else 0) + StrayMarks(scanner, body[1..])
  }

  lemma {:induction false} FilledPrepend(c: char, parts: seq<string>, values: seq<string>)
    requires |parts| > 0
    ensures Filled([[c] + parts[0]] + parts[1..], values) == [c] + Filled(parts, values)
  {
    var more := [[c] + parts[0]] + parts[1..];
    assert more[1..] == parts[1..];
    if |parts| > 1 {
      Regroup3([c], parts[0], NextValue(values) + Filled(parts[1..], MoreValues(values)));
    }
  }

  lemma {:induction false} FilledSlot(parts: seq<string>, value: string, values: seq<string>)
    requires |parts| > 0
    ensures Filled([""] + parts, [value] + values) == value + Filled(parts, values)
  {
    var more := [""] + parts;
    assert more[1..] == parts && ([value] + values)[1..] == values;
    EmptyConcat("", value + Filled(parts, values));
  }

  function TotalLength(parts: seq<string>): nat {
    if |parts| == 0 then 0 else |parts[0]| + TotalLength(parts[1..])
  }

  /** Every gap that has no value shows four bytes. */
  lemma {:induction false} FilledLength(parts: seq<string>, values: seq<string>)
    requires |parts| > |values|
    ensures |Filled(parts, values)| == TotalLength(parts) + TotalLength(values) + 4 * (|parts| - 1 - |values|)
    decreases |parts|
  {
    if |parts| == 1 {
      assert parts[1..] == [];
    } else {
      FilledLength(parts[1..], MoreValues(values));
    }
  }

  /** What is cut out of a line is kept, mark for mark. */
  lemma {:induction false} TemplateLength(scanner: Scanner, body: string)
    ensures var (template, slots) := Templatize(scanner, body);
            && |SlotParts(template)| == |slots| + 1 + StrayMarks(scanner, body)
            && TotalLength(SlotParts(template)) + TotalLength(slots) + StrayMarks(scanner, body) == |body|
    decreases |body|
  {
    if |body| > 0 {
      var n := TokenLength(scanner, body);
      var step := if n > 0 then n else 1;
      TemplateLength(scanner, body[step..]);
      var rest := Templatize(scanner, body[step..]);
      var parts := SlotParts(rest.0);
      var mark := if n > 0 then SLOT else body[0];
      assert ([mark] + rest.0)[1..] == rest.0;
      if mark == SLOT {
        assert ([""] + parts)[1..] == parts;
      } else {
        assert ([[body[0]] + parts[0]] + parts[1..])[1..] == parts[1..];
      }
      if n > 0 {
        assert ([body[..n]] + rest.1)[1..] == rest.1;
      }
    }
  }

  /** Filling a template with what was taken out of the line gives the line back, if and only if no mark is stray. */
  lemma {:induction false} RefillsBody(scanner: Scanner, body: string)
    ensures var (template, slots) := Templatize(scanner, body);
            Filled(SlotParts(template), slots) == body <==> StrayMarks(scanner, body) == 0
    ensures SLOT !in body ==> StrayMarks(scanner, body) == 0
  {
    if SLOT !in body {
      UnmarkedLine(scanner, body);
    }
    var (template, slots) := Templatize(scanner, body);
    TemplateLength(scanner, body);
    FilledLength(SlotParts(template), slots);
    if StrayMarks(scanner, body) == 0 {
      RefillsUnmarked(scanner, body);
    }
  }

  /** The case there is: a line that is the mark itself, and no token, comes back as a hole. */
  lemma {:induction false} StrayMarkShows(scanner: Scanner)
    requires scanner.token("\U{00}") == 0
    ensures var (template, slots) := Templatize(scanner, "\U{00}");
            Filled(SlotParts(template), slots) == "\U{E2}\U{96}\U{AA}0"
  {
    assert [SLOT][1..] == "" && [SLOT] + "" == [SLOT];
    assert SlotParts([SLOT]) == ["", ""] && ["", ""][1..] == [""];
    assert HOLE + "0" + "" == HOLE + "0";
  }

  lemma {:induction false} SlotPartsHead(c: char, rest: string)
    ensures var parts := SlotParts(rest);
            SlotParts([c] + rest) == if c == SLOT then [""] + parts else [[c] + parts[0]] + parts[1..]
  {
    assert ([c] + rest)[1..] == rest;
  }

  lemma {:induction false} RefillsUnmarked(scanner: Scanner, body: string)
    requires StrayMarks(scanner, body) == 0
    ensures var (template, slots) := Templatize(scanner, body); Filled(SlotParts(template), slots) == body
    decreases |body|
  {
    hide SlotParts, Filled;
    if |body| == 0 {
      NothingFilled();
    } else {
      var n := TokenLength(scanner, body);
      var step := if n > 0 then n else 1;
      RefillsUnmarked(scanner, body[step..]);
      var rest := Templatize(scanner, body[step..]);
      assert body == body[..step] + body[step..];
      if n > 0 {
        SlotPartsHead(SLOT, rest.0);
        FilledSlot(SlotParts(rest.0), body[..n], rest.1);
      } else {
        SlotPartsHead(body[0], rest.0);
        FilledPrepend(body[0], SlotParts(rest.0), rest.1);
      }
    }
  }

  lemma {:induction false} NothingFilled()
    ensures Filled(SlotParts(""), []) == ""
  {
  }

  /** A line without the mark, as all text that is no binary is, has no stray one. */
  lemma {:induction false} UnmarkedLine(scanner: Scanner, body: string)
    requires SLOT !in body
    ensures StrayMarks(scanner, body) == 0
    decreases |body|
  {
    if |body| > 0 {
      var n := TokenLength(scanner, body);
      var step := if n > 0 then n else 1;
      assert forall c :: c in body[step..] ==> c in body;
      assert body[0] in body;
      UnmarkedLine(scanner, body[step..]);
    }
  }

  // ----- The bucket key -----

  function BucketKey(template: string, arity: nat): string {
    template + [ARITY] + Decimal(arity)
  }

  lemma {:induction false} DecimalIsInjective(m: nat, n: nat)
    requires Decimal(m) == Decimal(n)
    ensures m == n
  {
    DecimalValue(m);
    DecimalValue(n);
  }

  lemma {:induction false} DigitsAfterMark(a: string, x: string, b: string, y: string)
    requires a + [ARITY] + x == b + [ARITY] + y && AllDigits(x) && AllDigits(y) && |x| <= |y|
    ensures a == b && x == y
  {
    var s := a + [ARITY] + x;
    assert forall i :: |b| < i < |s| ==> s[i] == y[i - |b| - 1];
    assert forall i :: |b| < i < |s| ==> IsDigit(s[i]);
    assert s[|a|] == ARITY && !IsDigit(ARITY);
    assert |a| == |b|;
    assert a == s[..|a|] && b == s[..|b|];
    assert x == s[|a| + 1..] && y == s[|b| + 1..];
  }

  /** Different templates, or different numbers of slots, never share a bucket. */
  lemma {:induction false} BucketKeyIsInjective(t: string, m: nat, u: string, n: nat)
    requires BucketKey(t, m) == BucketKey(u, n)
    ensures t == u && m == n
  {
    var x, y := Decimal(m), Decimal(n);
    if |x| <= |y| {
      DigitsAfterMark(t, x, u, y);
    } else {
      DigitsAfterMark(u, y, t, x);
    }
    DecimalIsInjective(m, n);
  }

  // ----- Groups -----

  /** The rows of captured values and, parallel to them, the raw line numbers. */
  datatype Group = Group(template: string, rows: seq<seq<string>>, lines: seq<nat>)

  predicate IsFor(group: Group, template: string, arity: nat) {
    group.template == template && |group.rows| > 0 && |group.rows[0]| == arity
  }

  /** Row r of the group is what was captured from this line. */
  predicate HoldsRow(scanner: Scanner, lines: seq<string>, firstLine: nat, group: Group, r: nat)
    requires r < |group.rows| && r < |group.lines|
  {
    && firstLine <= group.lines[r] < firstLine + |lines|
    && var body := Body(scanner, lines[group.lines[r] - firstLine]);
       body != "" && Templatize(scanner, body) == (group.template, group.rows[r])
  }

  /** Every row is the capture of its line; all have the same number of slots; the lines ascend. */
  ghost predicate Sound(scanner: Scanner, lines: seq<string>, firstLine: nat, group: Group) {
    && |group.rows| == |group.lines| > 0
    && (forall r :: 0 <= r < |group.rows| ==> HoldsRow(scanner, lines, firstLine, group, r) && |group.rows[r]| == |group.rows[0]|)
    && Ascending(group.lines)
  }

  predicate HasLine(group: Group, n: nat) {
    n in group.lines
  }

  ghost predicate Covered(groups: seq<Group>, n: nat) {
    exists g :: 0 <= g < |groups| && HasLine(groups[g], n)
  }

  /** No two groups have the same template and number of slots, and they come in the order of their first lines. */
  ghost predicate Separate(groups: seq<Group>) {
    forall g, h :: 0 <= g < h < |groups| && |groups[g].lines| > 0 && |groups[h].lines| > 0 && |groups[g].rows| > 0 ==>
      !IsFor(groups[h], groups[g].template, |groups[g].rows[0]|) && groups[g].lines[0] < groups[h].lines[0]
  }

  ghost predicate Below(group: Group, limit: nat) {
    forall r :: 0 <= r < |group.lines| ==> group.lines[r] < limit
  }

  /** The groups cover exactly the lines that are not blank, as far as the first `done` lines go. */
  ghost predicate IsGroupingOf(scanner: Scanner, lines: seq<string>, firstLine: nat, done: nat, groups: seq<Group>)
    requires done <= |lines|
  {
    && (forall g :: 0 <= g < |groups| ==> Sound(scanner, lines, firstLine, groups[g]) && Below(groups[g], firstLine + done))
    && (forall i :: 0 <= i < done ==> (Covered(groups, firstLine + i) <==> Body(scanner, lines[i]) != ""))
    && Separate(groups)
  }

  function KeyOf(group: Group): string
    requires |group.rows| > 0
  {
    BucketKey(group.template, |group.rows[0]|)
  }

  /** The index finds every group by its key. */
  ghost predicate Indexed(groups: seq<Group>, at: map<string, nat>) {
    && (forall g :: 0 <= g < |groups| ==> |groups[g].rows| > 0 && KeyOf(groups[g]) in at && at[KeyOf(groups[g])] == g)
    && (forall key :: key in at ==> at[key] < |groups| && |groups[at[key]].rows| > 0 && key == KeyOf(groups[at[key]]))
  }

  function Grown(group: Group, slots: seq<string>, n: nat): Group {
    group.(rows := group.rows + [slots], lines := group.lines + [n])
  }

  /** Line n, not blank, was captured as these slots of this template. */
  predicate Captured(scanner: Scanner, lines: seq<string>, firstLine: nat, n: nat, template: string, slots: seq<string>) {
    firstLine <= n < firstLine + |lines|
    && var body := Body(scanner, lines[n - firstLine]);
       body != "" && Templatize(scanner, body) == (template, slots)
  }

  lemma {:induction false} GrowSound(scanner: Scanner, lines: seq<string>, firstLine: nat, group: Group, slots: seq<string>, n: nat)
    requires Sound(scanner, lines, firstLine, group) && Below(group, n)
    requires Captured(scanner, lines, firstLine, n, group.template, slots) && |slots| == |group.rows[0]|
    ensures Sound(scanner, lines, firstLine, Grown(group, slots, n)) && Below(Grown(group, slots, n), n + 1)
  {
    hide Templatize, Body;
    var grown := Grown(group, slots, n);
    forall r | 0 <= r < |grown.rows| ensures HoldsRow(scanner, lines, firstLine, grown, r) && |grown.rows[r]| == |grown.rows[0]| {
      if r < |group.rows| {
        assert HoldsRow(scanner, lines, firstLine, group, r);
      }
    }
  }

  lemma {:induction false} NewSound(scanner: Scanner, lines: seq<string>, firstLine: nat, template: string, slots: seq<string>, n: nat)
    requires Captured(scanner, lines, firstLine, n, template, slots)
    ensures Sound(scanner, lines, firstLine, Group(template, [slots], [n])) && Below(Group(template, [slots], [n]), n + 1)
  {
    hide Templatize, Body;
    assert HoldsRow(scanner, lines, firstLine, Group(template, [slots], [n]), 0);
  }

  lemma {:induction false} CoverMore(groups: seq<Group>, j: nat, slots: seq<string>, n: nat, m: nat)
    requires j < |groups|
    ensures Covered(groups[j := Grown(groups[j], slots, n)], m) <==> Covered(groups, m) || m == n
  {
    var more := groups[j := Grown(groups[j], slots, n)];
    assert HasLine(more[j], m) <==> HasLine(groups[j], m) || m == n;
    if Covered(groups, m) {
      var g :| 0 <= g < |groups| && HasLine(groups[g], m);
      assert HasLine(more[g], m);
    }
    if Covered(more, m) {
      var g :| 0 <= g < |more| && HasLine(more[g], m);
      assert g != j ==> HasLine(groups[g], m);
    }
  }

  lemma {:induction false} CoverNew(groups: seq<Group>, group: Group, n: nat, m: nat)
    requires group.lines == [n]
    ensures Covered(groups + [group], m) <==> Covered(groups, m) || m == n
  {
    var more := groups + [group];
    if Covered(groups, m) {
      var g :| 0 <= g < |groups| && HasLine(groups[g], m);
      assert HasLine(more[g], m);
    }
    if m == n {
      assert HasLine(more[|groups|], m);
    }
    if Covered(more, m) {
      var g :| 0 <= g < |more| && HasLine(more[g], m);
      assert g < |groups| ==> HasLine(groups[g], m);
    }
  }

  lemma {:induction false} NotYetCovered(groups: seq<Group>, n: nat)
    requires forall g :: 0 <= g < |groups| ==> Below(groups[g], n)
    ensures !Covered(groups, n)
  {
    forall g | 0 <= g < |groups| ensures !HasLine(groups[g], n) {
      assert Below(groups[g], n);
    }
  }

  /** A blank line belongs to no group. */
  lemma {:induction false} SkipBlank(scanner: Scanner, lines: seq<string>, firstLine: nat, i: nat, groups: seq<Group>)
    requires i < |lines| && IsGroupingOf(scanner, lines, firstLine, i, groups) && Body(scanner, lines[i]) == ""
    ensures IsGroupingOf(scanner, lines, firstLine, i + 1, groups)
  {
    hide Body, Sound;
    NotYetCovered(groups, firstLine + i);
  }

  lemma {:induction false} AddRow(scanner: Scanner, lines: seq<string>, firstLine: nat, i: nat, groups: seq<Group>, j: nat, slots: seq<string>)
    requires i < |lines| && IsGroupingOf(scanner, lines, firstLine, i, groups) && j < |groups|
    requires Captured(scanner, lines, firstLine, firstLine + i, groups[j].template, slots) && |slots| == |groups[j].rows[0]|
    ensures IsGroupingOf(scanner, lines, firstLine, i + 1, groups[j := Grown(groups[j], slots, firstLine + i)])
  {
    hide Templatize, Body, Covered, HasLine;
    var n := firstLine + i;
    var more := groups[j := Grown(groups[j], slots, n)];
    GrowSound(scanner, lines, firstLine, groups[j], slots, n);
    NotYetCovered(groups, n);
    forall k | 0 <= k < i + 1 ensures Covered(more, firstLine + k) <==> Body(scanner, lines[k]) != "" {
      CoverMore(groups, j, slots, n, firstLine + k);
    }
  }

  lemma {:induction false} AddGroup(scanner: Scanner, lines: seq<string>, firstLine: nat, i: nat, groups: seq<Group>, template: string, slots: seq<string>)
    requires i < |lines| && IsGroupingOf(scanner, lines, firstLine, i, groups)
    requires Captured(scanner, lines, firstLine, firstLine + i, template, slots)
    requires forall g :: 0 <= g < |groups| ==> !IsFor(groups[g], template, |slots|)
    ensures IsGroupingOf(scanner, lines, firstLine, i + 1, groups + [Group(template, [slots], [firstLine + i])])
  {
    hide Templatize, Body, Covered, HasLine;
    var n := firstLine + i;
    var group := Group(template, [slots], [n]);
    var more := groups + [group];
    NewSound(scanner, lines, firstLine, template, slots, n);
    NotYetCovered(groups, n);
    forall k | 0 <= k < i + 1 ensures Covered(more, firstLine + k) <==> Body(scanner, lines[k]) != "" {
      CoverNew(groups, group, n, firstLine + k);
    }
    forall g, h | 0 <= g < h < |more|
      ensures !IsFor(more[h], more[g].template, |more[g].rows[0]|) && more[g].lines[0] < more[h].lines[0]
    {
      if h == |groups| {
        assert Below(groups[g], n) && !IsFor(groups[g], template, |slots|);
      }
    }
  }

  lemma {:induction false} KeyIsUnseen(groups: seq<Group>, at: map<string, nat>, template: string, arity: nat)
    requires Indexed(groups, at) && BucketKey(template, arity) !in at
    ensures forall g :: 0 <= g < |groups| ==> !IsFor(groups[g], template, arity)
  {
    hide BucketKey;
    assert forall g :: 0 <= g < |groups| ==> KeyOf(groups[g]) in at;
  }

  lemma {:induction false} KeyIsSeen(groups: seq<Group>, at: map<string, nat>, template: string, arity: nat)
    requires Indexed(groups, at) && BucketKey(template, arity) in at
    ensures var j := at[BucketKey(template, arity)]; j < |groups| && IsFor(groups[j], template, arity)
  {
    var j := at[BucketKey(template, arity)];
    BucketKeyIsInjective(template, arity, groups[j].template, |groups[j].rows[0]|);
  }

  method GroupTemplates(scanner: Scanner, lines: seq<string>, firstLine: nat) returns (groups: seq<Group>)
    ensures IsGroupingOf(scanner, lines, firstLine, |lines|, groups)
  {
    hide Templatize, Body, BucketKey, IsGroupingOf, Sound;
    var at: map<string, nat> := map[];
    groups := [];
    NoGroups(scanner, lines, firstLine);
    for i := 0 to |lines|
      invariant IsGroupingOf(scanner, lines, firstLine, i, groups) && Indexed(groups, at)
    {
      var body := Body(scanner, lines[i]);
      if body == "" {
        SkipBlank(scanner, lines, firstLine, i, groups);
        continue;
      }
      var (template, slots) := Templatize(scanner, body);
      var key := BucketKey(template, |slots|);
      if key !in at {
        KeyIsUnseen(groups, at, template, |slots|);
        AddGroup(scanner, lines, firstLine, i, groups, template, slots);
        at := at[key := |groups|];
        groups := groups + [Group(template, [slots], [firstLine + i])];
      } else {
        var j := at[key];
        KeyIsSeen(groups, at, template, |slots|);
        AddRow(scanner, lines, firstLine, i, groups, j, slots);
        groups := groups[j := Grown(groups[j], slots, firstLine + i)];
      }
    }
  }

  lemma {:induction false} NoGroups(scanner: Scanner, lines: seq<string>, firstLine: nat)
    ensures IsGroupingOf(scanner, lines, firstLine, 0, [])
  {
  }

  // ----- What a grouping is worth -----

  /** A line stands in one group only, and there once. */
  lemma {:induction false} LinesStandOnce(scanner: Scanner, lines: seq<string>, firstLine: nat, groups: seq<Group>, g: nat, r: nat, h: nat, q: nat)
    requires IsGroupingOf(scanner, lines, firstLine, |lines|, groups)
    requires g < |groups| && r < |groups[g].lines| && h < |groups| && q < |groups[h].lines|
    requires groups[g].lines[r] == groups[h].lines[q]
    ensures g == h && r == q
  {
    hide HoldsRow;
    assert Sound(scanner, lines, firstLine, groups[g]) && Sound(scanner, lines, firstLine, groups[h]);
    SameLineSameShape(scanner, lines, firstLine, groups[g], r, groups[h], q);
    assert !(g < h) && !(h < g);
  }

  lemma {:induction false} SameLineSameShape(scanner: Scanner, lines: seq<string>, firstLine: nat, a: Group, r: nat, b: Group, q: nat)
    requires Sound(scanner, lines, firstLine, a) && Sound(scanner, lines, firstLine, b)
    requires r < |a.lines| && q < |b.lines| && a.lines[r] == b.lines[q]
    ensures IsFor(b, a.template, |a.rows[0]|) && IsFor(a, b.template, |b.rows[0]|)
  {
    hide Templatize, Body;
    assert HoldsRow(scanner, lines, firstLine, a, r) && HoldsRow(scanner, lines, firstLine, b, q);
  }

  lemma {:induction false} RowRefills(scanner: Scanner, lines: seq<string>, firstLine: nat, groups: seq<Group>, g: nat, r: nat)
    requires IsGroupingOf(scanner, lines, firstLine, |lines|, groups) && g < |groups| && r < |groups[g].lines|
    ensures r < |groups[g].rows| && firstLine <= groups[g].lines[r] < firstLine + |lines|
    ensures var body := Body(scanner, lines[groups[g].lines[r] - firstLine]);
            && body != ""
            && (Filled(SlotParts(groups[g].template), groups[g].rows[r]) == body <==> StrayMarks(scanner, body) == 0)
            && (SLOT !in body ==> StrayMarks(scanner, body) == 0)
  {
    hide Templatize, Body, StrayMarks, Filled, SlotParts, Separate, Covered, Below, Ascending;
    assert Sound(scanner, lines, firstLine, groups[g]);
    assert HoldsRow(scanner, lines, firstLine, groups[g], r);
    RefillsBody(scanner, Body(scanner, lines[groups[g].lines[r] - firstLine]));
  }

  /**
   Every row of every group leads back to a raw line: read back by its number, the spill gives that line exactly, and
   the template filled with the row is what is shown of it.
   */
  lemma {:induction false} RowsAreRecoverable(scanner: Scanner, raw: string, firstLine: nat, groups: seq<Group>, g: nat, r: nat)
    requires IsGroupingOf(scanner, RawLines(Normalized(raw)), firstLine, |RawLines(Normalized(raw))|, groups)
    requires g < |groups| && r < |groups[g].lines| && |Split(raw)| <= MAX_INT
    ensures var k := groups[g].lines[r] - firstLine + 1;
            && 1 <= k <= |Split(raw)|
            && Selection(raw, Decimal(k)) == Ok(Split(raw)[k - 1])
            && r < |groups[g].rows|
            && var body := Body(scanner, LineView(Split(raw), k - 1));
               && body != ""
               && (Filled(SlotParts(groups[g].template), groups[g].rows[r]) == body <==> StrayMarks(scanner, body) == 0)
               && (SLOT !in body ==> Filled(SlotParts(groups[g].template), groups[g].rows[r]) == body)
  {
    hide Body, Selection, LineView, RawLines, StrayMarks, Filled, SlotParts, IsGroupingOf, Decimal, Normalized, Split;
    var lines := RawLines(Normalized(raw));
    RowRefills(scanner, lines, firstLine, groups, g, r);
    var i := groups[g].lines[r] - firstLine;
    RawLinesAreAddressed(raw, i);
    OneLineSelects(raw, i + 1);
  }

  lemma {:induction false} OneLineSelects(raw: string, k: nat)
    requires 1 <= k <= |Split(raw)| <= MAX_INT
    ensures Selection(raw, Decimal(k)) == Ok(Split(raw)[k - 1])
  {
    hide Selection, Decimal;
    var lines := Split(raw);
    PrintedRunsSelect(raw, [Run(k, k)]);
    assert RunsText([Run(k, k)]) == Decimal(k);
    assert [Run(k, k)][1..] == [];
    assert LinesIn(lines, (k, k)) == [lines[k - 1]] && LinesOf(lines, [Run(k, k)]) == [lines[k - 1]] + [];
    assert Join([lines[k - 1]]) == lines[k - 1];
  }

  // ----- The head of a rendered group -----

  predicate Varies(rows: seq<seq<string>>, i: nat) {
    exists r :: 0 <= r < |rows| && i < |rows[r]| && i < |rows[0]| && rows[r][i] != rows[0][i]
  }

  /** How many of the first n slots vary. */
  function VaryingBefore(rows: seq<seq<string>>, n: nat): nat {
    if n == 0 then 0 else VaryingBefore(rows, n - 1) + if Varies(rows, n - 1) then 1 else 0
  }

  /** What stands for slot i: its value if it never changes, or else a numbered hole. */
  function Label(rows: seq<seq<string>>, i: nat): string
    requires |rows| > 0 && i < |rows[0]|
  {
    if Varies(rows, i) then HOLE + Decimal(VaryingBefore(rows, i + 1)) else rows[0][i]
  }

  function LabelsFrom(rows: seq<seq<string>>, i: nat): seq<string>
    requires |rows| > 0 && i <= |rows[0]|
    decreases |rows[0]| - i
  {
    if i == |rows[0]| then [] else [Label(rows, i)] + LabelsFrom(rows, i + 1)
  }

  function HeadText(group: Group): string
    requires |group.rows| > 0
  {
    Filled(SlotParts(group.template), LabelsFrom(group.rows, 0))
  }

  method SlotVaries(rows: seq<seq<string>>, i: nat) returns (varies: bool)
    requires |rows| > 0 && forall r :: 0 <= r < |rows| ==> i < |rows[r]|
    ensures varies == Varies(rows, i)
  {
    for r := 0 to |rows|
      invariant forall q :: 0 <= q < r ==> rows[q][i] == rows[0][i]
    {
      if rows[r][i] != rows[0][i] {
        return true;
      }
    }
    return false;
  }

  lemma {:induction false} LabelsMore(rows: seq<seq<string>>, i: nat)
    requires |rows| > 0 && i < |rows[0]|
    ensures LabelsFrom(rows, i) == [Label(rows, i)] + LabelsFrom(rows, i + 1)
  {
  }

  /** Fixed slots folded back into the template, varying ones numbered. */
  method CollectLabels(rows: seq<seq<string>>) returns (labels: seq<string>)
    requires |rows| > 0 && forall r :: 0 <= r < |rows| ==> |rows[r]| == |rows[0]|
    ensures labels == LabelsFrom(rows, 0)
  {
    hide Varies, Decimal;
    labels := [];
    var count := 0;
    for i := 0 to |rows[0]|
      invariant count == VaryingBefore(rows, i)
      invariant labels + LabelsFrom(rows, i) == LabelsFrom(rows, 0)
    {
      LabelsMore(rows, i);
      var varies := SlotVaries(rows, i);
      Regroup3(labels, [Label(rows, i)], LabelsFrom(rows, i + 1));
      if varies {
        count := count + 1;
        labels := labels + [HOLE + Decimal(count)];
      } else {
        labels := labels + [rows[0][i]];
      }
    }
    assert labels + [] == labels;
  }

  method RenderHead(group: Group) returns (head: string)
    requires |group.rows| > 0 && forall r :: 0 <= r < |group.rows| ==> |group.rows[r]| == |group.rows[0]|
    ensures head == HeadText(group)
  {
    var parts := SlotParts(group.template);
    var labels := CollectLabels(group.rows);
    head := "";
    ghost var left := labels;
    assert parts[0..] == parts;
    EmptyConcat("", Filled(parts, labels));
    for i := 0 to |parts| - 1
      invariant head + Filled(parts[i..], left) == Filled(parts, labels)
      invariant left == if i < |labels| then labels[i..] else []
    {
      assert parts[i..][0] == parts[i] && parts[i..][1..] == parts[i + 1..];
      Regroup4(head, parts[i], NextValue(left), Filled(parts[i + 1..], MoreValues(left)));
      head := head + parts[i];
      head := head + if i < |labels| then labels[i] else HOLE + "0";
      left := MoreValues(left);
    }
    assert parts[|parts| - 1..] == [parts[|parts| - 1]];
    head := head + parts[|parts| - 1];
  }

  lemma {:induction false} NothingVaries(rows: seq<seq<string>>, i: nat)
    requires |rows| == 1 && i <= |rows[0]|
    ensures LabelsFrom(rows, i) == rows[0][i..]
    decreases |rows[0]| - i
  {
    if i < |rows[0]| {
      NothingVaries(rows, i + 1);
      assert !Varies(rows, i);
      assert rows[0][i..] == [rows[0][i]] + rows[0][i + 1..];
    }
  }

  /** A group of one shows its line verbatim. */
  lemma {:induction false} SingletonsAreVerbatim(scanner: Scanner, lines: seq<string>, firstLine: nat, groups: seq<Group>, g: nat)
    requires IsGroupingOf(scanner, lines, firstLine, |lines|, groups) && g < |groups| && |groups[g].rows| == 1
    ensures |groups[g].lines| == 1 && firstLine <= groups[g].lines[0] < firstLine + |lines|
    ensures var body := Body(scanner, lines[groups[g].lines[0] - firstLine]); HeadText(groups[g]) == body <==> StrayMarks(scanner, body) == 0
    ensures var body := Body(scanner, lines[groups[g].lines[0] - firstLine]); SLOT !in body ==> HeadText(groups[g]) == body
  {
    hide Templatize, Body;
    assert Sound(scanner, lines, firstLine, groups[g]);
    assert HoldsRow(scanner, lines, firstLine, groups[g], 0);
    NothingVaries(groups[g].rows, 0);
    assert groups[g].rows[0][0..] == groups[g].rows[0];
    RefillsBody(scanner, Body(scanner, lines[groups[g].lines[0] - firstLine]));
  }
}
