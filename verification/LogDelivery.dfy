/**
 One stream of output, analysed into a bounded view and delivered: a view that is not the exact output always comes
 with an identifier that recovers it.
 */
module LogDelivery {
  import opened Text
  import opened TerminalText
  import opened LogTemplates
  import opened LogRows
  import BudgetCap
  import opened SpillStore

  datatype Options = Options(budget: int, lineMax: nat, minLines: int, minBytes: int, firstLine: nat)

  function WithDefaults(o: Options): Options {
    Options(if o.budget == 0 then 8000 else o.budget, if o.lineMax == 0 then 400 else o.lineMax,
            if o.minLines == 0 then 40 else o.minLines, if o.minBytes == 0 then 4000 else o.minBytes,
            if o.firstLine == 0 then 1 else o.firstLine)
  }

  datatype View = View(text: string, elided: bool, outlined: bool, considered: nat, delivered: nat, dropped: nat)

  function Deliver(text: string, raw: string, outlined: bool, dropped: nat): View {
    View(text, text != raw, outlined, |raw|, |text|, dropped)
  }

  /** Short output is passed through as it is. */
  predicate PassesThrough(raw: string, o: Options) {
    raw == "" || (|RawLines(Normalized(raw))| < o.minLines && |raw| <= o.minBytes)
  }

  /** Clamped line by line, then cut to the budget. */
  function Fitted(text: string, o: Options): (string, nat) {
    BudgetCap.Capped(Join(Clamped(Split(text), o.lineMax)), o.budget)
  }

  ghost predicate AllEven(groups: seq<Group>) {
    forall g :: 0 <= g < |groups| ==> Even(groups[g].rows)
  }

  /** The view of these groups: the outline of all their rows if it is shorter than the text itself, else the text. */
  ghost function ViewOfGroups(style: Style, groups: seq<Group>, raw: string, o: Options): View
    requires AllEven(groups)
  {
    var bounded, outline := Fitted(Normalized(raw), o), Fitted(Join(AllRows(style, groups)), o);
    if |outline.0| >= |bounded.0| then Deliver(bounded.0, raw, false, bounded.1) else Deliver(outline.0, raw, true, outline.1)
  }

  /** The view is the output itself, or that of the groups of its lines. */
  ghost predicate IsViewOf(view: View, scanner: Scanner, style: Style, raw: string, options: Options) {
    var o := WithDefaults(options);
    var lines := RawLines(Normalized(raw));
    if PassesThrough(raw, o) then view == Deliver(raw, raw, false, 0)
    else exists groups: seq<Group> :: IsGroupingOf(scanner, lines, o.firstLine, |lines|, groups) && AllEven(groups)
                          && view == ViewOfGroups(style, groups, raw, o)
  }

  lemma {:induction false} GroupsAreEven(scanner: Scanner, lines: seq<string>, firstLine: nat, groups: seq<Group>)
    requires IsGroupingOf(scanner, lines, firstLine, |lines|, groups)
    ensures AllEven(groups)
  {
    hide HoldsRow, Separate, Covered, Below;
    forall g | 0 <= g < |groups| ensures Even(groups[g].rows) {
      assert Sound(scanner, lines, firstLine, groups[g]);
    }
  }

  method RenderAll(style: Style, groups: seq<Group>) returns (rows: seq<string>)
    requires AllEven(groups)
    ensures rows == AllRows(style, groups)
  {
    hide GroupRows, Even;
    rows := [];
    assert AllRows(style, groups[..0]) == [];
    for g := 0 to |groups|
      invariant rows == AllRows(style, groups[..g])
    {
      assert groups[..g + 1][..g] == groups[..g];
      var more := RenderTemplateGroup(style, groups[g]);
      rows := rows + more;
    }
    assert groups[..|groups|] == groups;
  }

  method Analyze(scanner: Scanner, style: Style, raw: string, options: Options) returns (view: View)
    ensures IsViewOf(view, scanner, style, raw, options)
  {
    hide IsGroupingOf, AllRows, Clamped, Split, Join, Normalized, RawLines;
    var o := WithDefaults(options);
    if raw == "" {
      return Deliver(raw, raw, false, 0);
    }
    var norm := TerminalNormalize(raw);
    var lines := RawLines(norm);
    if |lines| < o.minLines && |raw| <= o.minBytes {
      return Deliver(raw, raw, false, 0);
    }
    var clamped, any := ClampLines(norm, o.lineMax);
    var bounded, boundedDropped := BudgetCap.Cap(clamped, o.budget);
    var groups := GroupTemplates(scanner, lines, o.firstLine);
    GroupsAreEven(scanner, lines, o.firstLine, groups);
    var rows := RenderAll(style, groups);
    clamped, any := ClampLines(Join(rows), o.lineMax);
    var outline, outlineDropped := BudgetCap.Cap(clamped, o.budget);
    assert (bounded, boundedDropped) == Fitted(norm, o);
    assert (outline, outlineDropped) == Fitted(Join(rows), o);
    if |outline| >= |bounded| {
      view := Deliver(bounded, raw, false, boundedDropped);
    } else {
      view := Deliver(outline, raw, true, outlineDropped);
    }
    assert view == ViewOfGroups(style, groups, raw, o);
  }

  /** A view is marked elided exactly when it is not the output, and an outline is shorter than the bounded text. */
  lemma {:induction false} ElidedMeansChanged(view: View, scanner: Scanner, style: Style, raw: string, options: Options)
    requires IsViewOf(view, scanner, style, raw, options)
    ensures view.elided <==> view.text != raw
    ensures view.considered == |raw| && view.delivered == |view.text|
    ensures view.outlined ==> |view.text| < |Fitted(Normalized(raw), WithDefaults(options)).0|
  {
    hide IsGroupingOf, Fitted, Normalized, RawLines, AllEven;
  }

  // ----- What is passed through, and what the limits are -----

  /** What an option that is zero stands for. */
  lemma {:induction false} DefaultLimits(o: Options)
    ensures var d := WithDefaults(o);
            && d.budget == (if o.budget == 0 then 8000 else o.budget) && d.lineMax == (if o.lineMax == 0 then 400 else o.lineMax)
            && d.minLines == (if o.minLines == 0 then 40 else o.minLines) && d.minBytes == (if o.minBytes == 0 then 4000 else o.minBytes)
            && d.firstLine == (if o.firstLine == 0 then 1 else o.firstLine)
  {
  }

  /** Fewer lines than the least and no more bytes than the least that are looked at. */
  ghost predicate IsShort(raw: string, o: Options) {
    && |RawLines(Normalized(raw))| < (if o.minLines == 0 then 40 else o.minLines)
    && |raw| <= (if o.minBytes == 0 then 4000 else o.minBytes)
  }

  /** Short output, or none, is the view, exactly; any other is bounded, and outlined only if that is shorter. */
  lemma {:induction false} ShortOutputIsExact(view: View, scanner: Scanner, style: Style, raw: string, options: Options)
    requires IsViewOf(view, scanner, style, raw, options)
    ensures |raw| == 0 || IsShort(raw, options) ==>
              view.text == raw && !view.elided && !view.outlined && view.dropped == 0
    ensures |raw| > 0 && !IsShort(raw, options) && !view.outlined ==>
              (view.text, view.dropped) == Fitted(Normalized(raw), WithDefaults(options))
  {
    hide IsGroupingOf, Fitted, Normalized, RawLines, AllEven;
    DefaultLimits(options);
  }

  // ----- What an outline shows -----

  /** The lines of a text that had to fit a budget: all of them, or what the budget leaves of them, counted. */
  ghost predicate IsFitted(text: string, dropped: nat, lines: seq<string>, budget: int)
    requires |lines| > 0
  {
    if |Join(lines)| <= budget then Split(text) == lines && dropped == 0
    else if BudgetCap.NoLineFits(lines, budget) then BudgetCap.KeepsFirstLine(text, dropped, lines, budget)
    else BudgetCap.KeepsWholeLines(text, dropped, lines, budget)
  }

  /** The rows are those of a grouping of the lines; every group has one that starts with its line numbers. */
  ghost predicate AreRowsOf(rows: seq<string>, scanner: Scanner, style: Style, raw: string, o: Options) {
    var lines := RawLines(Normalized(raw));
    exists groups: seq<Group> :: IsGroupingOf(scanner, lines, o.firstLine, |lines|, groups) && AllEven(groups)
      && rows == AllRows(style, groups)
      && forall g :: 0 <= g < |groups| ==> |groups[g].rows| > 0 && HeadRow(style, groups[g]) in rows
  }

  lemma {:induction false} FittedLines(rows: seq<string>, o: Options)
    requires |rows| > 0 && AllLfFree(rows)
    ensures var (text, dropped) := Fitted(Join(rows), o);
            text != "" ==> IsFitted(text, dropped, Clamped(rows, o.lineMax), o.budget)
  {
    hide Clamped, Split, Join, BudgetCap.Capped, BudgetCap.NoLineFits, BudgetCap.KeepsFirstLine, BudgetCap.KeepsWholeLines;
    ClampKeepsLines(rows, o.lineMax);
    var text := Join(Clamped(Split(Join(rows)), o.lineMax));
    JoinSplit(text);
    BudgetCap.KeptAndDropped(text, o.budget);
  }

  lemma {:induction false} RowsOfGroups(rows: seq<string>, scanner: Scanner, style: Style, raw: string, o: Options, groups: seq<Group>)
    requires AddsNoLines(scanner, style)
    requires var lines := RawLines(Normalized(raw)); IsGroupingOf(scanner, lines, o.firstLine, |lines|, groups)
    requires AllEven(groups) && rows == AllRows(style, groups)
    ensures AllLfFree(rows) && AreRowsOf(rows, scanner, style, raw, o)
  {
    hide IsGroupingOf, AllRows, HeadRow, HoldsNoLf, Normalized, RawLines;
    var lines := RawLines(Normalized(raw));
    RawLinesLfFree(Normalized(raw));
    forall g | 0 <= g < |groups| ensures Even(groups[g].rows) && |groups[g].rows| > 0 && HoldsNoLf(groups[g]) {
      GroupsAreTame(scanner, style, lines, o.firstLine, groups, g);
    }
    AllRowsLfFree(scanner, style, groups);
    forall g | 0 <= g < |groups| ensures HeadRow(style, groups[g]) in rows {
      EveryGroupHasItsRow(style, groups, g);
    }
  }

  lemma {:induction false} RawLinesLfFree(text: string)
    ensures AllLfFree(RawLines(text))
  {
  }

  /**
   An outline that is not empty is, line for line, the clamped rows of all groups, each group with a row of its own; or,
   when they do not fit the budget, what the budget leaves of them.
   */
  lemma {:induction false} EveryGroupIsShown(view: View, scanner: Scanner, style: Style, raw: string, options: Options) returns (rows: seq<string>)
    requires IsViewOf(view, scanner, style, raw, options) && AddsNoLines(scanner, style)
    requires view.outlined && view.text != ""
    ensures var o := WithDefaults(options);
            && |rows| > 0 && AreRowsOf(rows, scanner, style, raw, o)
            && IsFitted(view.text, view.dropped, Clamped(rows, o.lineMax), o.budget)
  {
    hide IsGroupingOf, AreRowsOf, IsFitted, Clamped, Normalized, RawLines, Fitted, AddsNoLines;
    var o := WithDefaults(options);
    var lines := RawLines(Normalized(raw));
    var groups :| IsGroupingOf(scanner, lines, o.firstLine, |lines|, groups) && AllEven(groups)
                  && view == ViewOfGroups(style, groups, raw, o);
    rows := AllRows(style, groups);
    RowsOfGroups(rows, scanner, style, raw, o, groups);
    if |rows| == 0 {
      NoRowsShowNothing(o);
    } else {
      FittedLines(rows, o);
    }
  }

  lemma {:induction false} NoRowsShowNothing(o: Options)
    ensures Fitted(Join([]), o).0 == ""
  {
    assert Split("") == [""] && Clamped([""], o.lineMax) == [""];
    BudgetCap.EmptyStaysEmpty(o.budget);
  }

  // ----- Delivery -----

  datatype Stream = Stream(view: View, spillId: string, skipped: bool, spillFailed: bool)

  /** The output as the command produced it. */
  function Exact(raw: string): Stream {
    Stream(Deliver(raw, raw, false, 0), "", true, false)
  }

  function SpillFailed(raw: string): Stream {
    Exact(raw).(spillFailed := true)
  }

  /** There is no store, or it has no room for the output. */
  ghost predicate Refuses(spills: Store?, raw: string, now: int)
    reads spills
  {
    spills == null || |raw| > MAXIMUM_BYTES || |Live(spills.records, now)| >= MAXIMUM_SPILLS
  }

  /** The analysis gives a view that is not the output. */
  ghost predicate WouldElide(scanner: Scanner, style: Style, raw: string, options: Options) {
    exists view :: IsViewOf(view, scanner, style, raw, options) && view.text != raw
  }

  /**
   A failed spill never fails the call.  `id` is the identifier the store would make; recorded are the two byte counts
   that go to the telemetry recorder.  The view is that of the analysis, unless that is switched off or would elide
   something with no store to keep it.
   */
  method Compact(scanner: Scanner, style: Style, raw: string, options: Options, disabled: bool, spills: Store?, id: string, now: int)
    returns (s: Stream, recorded: (nat, nat))
    requires id != "" && (spills != null ==> spills.Valid() && id !in spills.records)
    modifies spills
    ensures spills != null ==> spills.Valid()
    ensures s.view.text != raw ==>
              && s.spillId == id && spills != null
              && forall later :: later <= now + spills.ttl ==> Found(spills.records, s.spillId, later) == Ok(raw)
    ensures s.spillId == "" ==> s.view.text == raw
    ensures disabled ==> s == Stream(View(raw, false, false, |raw|, |raw|, 0), "", true, false)
    ensures s.spillFailed ==>
              !disabled && s == Stream(View(raw, false, false, |raw|, |raw|, 0), "", true, true) && old(Refuses(spills, raw, now)) && WouldElide(scanner, style, raw, options)
    ensures !disabled && !s.spillFailed ==> !s.skipped && IsViewOf(s.view, scanner, style, raw, options)
    ensures s.view.text == raw && spills != null && !s.spillFailed ==> spills.records == old(spills.records)
    ensures recorded == (|raw|, |s.view.text|)
  {
    hide IsViewOf;
    if disabled {
      s := Exact(raw);
      return s, (|raw|, |s.view.text|);
    }
    var view := Analyze(scanner, style, raw, options);
    ElidedMeansChanged(view, scanner, style, raw, options);
    if !view.elided {
      s := Stream(view, "", false, false);
    } else if spills == null {
      s := SpillFailed(raw);
    } else {
      var error := spills.Put(id, raw, now);
      s := if error.Some? then SpillFailed(raw) else Stream(view, id, false, false);
    }
    return s, (|raw|, |s.view.text|);
  }
}
