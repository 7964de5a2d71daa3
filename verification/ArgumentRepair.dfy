/**
 Repairing the arguments of a tool call: a verb given under another name, keys that are nearly declared ones,
 unknown keys, and a verb that is nearly a known one.
 */
module ArgumentRepair {
  import opened Text
  import opened KeyOrder
  import opened OsaDistance

  // ----- The nearest candidate -----

  /** The distance as it is measured, letter case aside. */
  function Far(lower: string -> string, given: string, candidate: string): nat {
    var a, b := lower(given), lower(candidate);
    Distance(a, b, |a|, |b|)
  }

  /** Candidate k is nearer than every other candidate. */
  ghost predicate IsNearest(lower: string -> string, given: string, candidates: seq<string>, k: nat) {
    && k < |candidates|
    && forall j :: 0 <= j < |candidates| && j != k ==> Far(lower, given, candidates[k]) < Far(lower, given, candidates[j])
  }

  /** The position of the nearest candidate; none when there is no candidate or a tie. */
  ghost function Nearest(lower: string -> string, given: string, candidates: seq<string>): (found: Option<nat>)
    ensures found.Some? ==> IsNearest(lower, given, candidates, found.value)
    ensures found.None? ==> forall k :: !IsNearest(lower, given, candidates, k)
  {
    if k :| IsNearest(lower, given, candidates, k) then Some(k) else None
  }

  /** The candidate and its distance, or "" and -1. */
  method FindNearest(lower: string -> string, given: string, candidates: seq<string>) returns (best: string, bestDistance: int)
    ensures var found := Nearest(lower, given, candidates);
            && (found.Some? ==> best == candidates[found.value] && bestDistance == Far(lower, given, best))
            && (found.None? ==> best == "" && bestDistance == -1)
  {
    hide Distance;
    best, bestDistance := "", -1;
    var tied := false;
    ghost var at := 0;
    for i := 0 to |candidates|
      invariant bestDistance < 0 <==> i == 0
      invariant i == 0 ==> !tied && bestDistance == -1 && best == ""
      invariant i > 0 ==> at < i && best == candidates[at] && bestDistance == Far(lower, given, best)
      invariant i > 0 ==> forall j :: 0 <= j < i ==> bestDistance <= Far(lower, given, candidates[j])
      invariant i > 0 ==> (tied <==> exists j :: 0 <= j < i && j != at && Far(lower, given, candidates[j]) == bestDistance)
    {
      var candidate := candidates[i];
      var distance := EditDistance(lower(given), lower(candidate));
      assert distance == Far(lower, given, candidates[i]);
      if bestDistance < 0 || distance < bestDistance {
        best, bestDistance, tied := candidate, distance, false;
        at := i;
      } else if distance == bestDistance {
        tied := true;
      }
    }
    if tied {
      return "", -1;
    }
    if |candidates| > 0 {
      assert IsNearest(lower, given, candidates, at);
    }
  }

  lemma {:induction false} NearestIsUnique(lower: string -> string, given: string, candidates: seq<string>, k: nat)
    requires IsNearest(lower, given, candidates, k)
    ensures Nearest(lower, given, candidates) == Some(k)
  {
    hide Distance;
    var found := Nearest(lower, given, candidates);
    assert found.Some?;
  }

  /** A name that is a candidate itself, and no other in another case, is its own nearest. */
  lemma {:induction false} ExactNameIsNearest(lower: string -> string, candidates: seq<string>, k: nat)
    requires k < |candidates|
    requires forall j :: 0 <= j < |candidates| && j != k ==> lower(candidates[j]) != lower(candidates[k])
    ensures Nearest(lower, candidates[k], candidates) == Some(k) && Far(lower, candidates[k], candidates[k]) == 0
  {
    hide Distance;
    forall j | 0 <= j < |candidates| ensures Far(lower, candidates[k], candidates[j]) == 0 <==> j == k {
      var a, b := lower(candidates[k]), lower(candidates[j]);
      ZeroOnlyOnEqual(a, b, |a|, |b|);
      assert a[..|a|] == a && b[..|b|] == b;
    }
    assert IsNearest(lower, candidates[k], candidates, k);
    NearestIsUnique(lower, candidates[k], candidates, k);
  }

  /** How far a correction may reach; strict on short names. */
  function RepairThreshold(name: string): nat {
    if |name| <= 4 then 1 else if |name| <= 8 then 2 else 3
  }

  // ----- Objects and catalogs -----

  datatype Value = Str(text: string) | Other(content: string)

  type Fields = map<string, Value>

  datatype Arguments =
    | Malformed
    | NotAnObject
    | Object(fields: Fields)

  datatype Catalog = Catalog(verbs: seq<string>, destructive: set<string>)

  const VERB_ALIASES := ["cmd", "action", "op", "mode", "subcommand", "operation"]

  const FILE_VERBS := [
    "read", "list", "symbol", "outline", "locate", "diff", "identity", "vault_list",
    "write", "edit", "sed", "rename", "rewrite", "vault_restore"
  ]

  const OPS_VERBS := [
    "list_services", "probe_service", "probe_port", "probe_process", "probe_file",
    "log_grep", "log_correlate", "log_investigate",
    "log_window", "log_trace", "log_search", "log_errors", "log_since",
    "status", "collect", "cancel"
  ]

  function ToolVerbs(tool: string): Option<Catalog> {
    if tool == "light_file" then
      Some(Catalog(FILE_VERBS, {"write", "edit", "sed", "rename", "rewrite", "vault_restore"}))
    else if tool == "light_bash" then Some(Catalog(["status", "collect", "cancel"], {}))
    else if tool == "light_ops" then Some(Catalog(OPS_VERBS, {}))
    else None
  }

  datatype Warning =
    | Folded(alias: string)
    | Renamed(key: string, match': string)
    | Dropped(key: string, closest: string)
    | Corrected(given: string, match': string)

  datatype Outcome =
    | Unchanged
    | Repaired(fields: Fields, warnings: seq<Warning>)
    | Refused(given: string, match': string)

  // ----- Folding an alias onto the verb -----

  predicate CanFold(fields: Fields, declared: set<string>, alias: string) {
    alias in fields && alias !in declared && fields[alias].Str? && fields[alias].text != ""
  }

  function FirstAlias(fields: Fields, declared: set<string>, aliases: seq<string>): (alias: Option<string>)
    ensures alias.Some? ==> CanFold(fields, declared, alias.value)
  {
    if |aliases| == 0 then None
    else if CanFold(fields, declared, aliases[0]) then Some(aliases[0])
    else FirstAlias(fields, declared, aliases[1..])
  }

  function AliasOf(fields: Fields, declared: set<string>): (alias: Option<string>)
    ensures alias.Some? ==> CanFold(fields, declared, alias.value)
  {
    if "verb" in declared && "verb" !in fields then FirstAlias(fields, declared, VERB_ALIASES) else None
  }

  function Fold(fields: Fields, alias: string): Fields
    requires alias in fields && fields[alias].Str?
  {
    fields["verb" := Str(fields[alias].text)] - {alias}
  }

  function FoldAlias(fields: Fields, declared: set<string>): Fields {
    var alias := AliasOf(fields, declared);
    if alias.Some? then Fold(fields, alias.value) else fields
  }

  // ----- Renaming and dropping keys -----

  /** The declared key that an undeclared one stands for. */
  ghost predicate StandsFor(lower: string -> string, key: string, names: seq<string>, name: string) {
    var found := Nearest(lower, key, names);
    && found.Some? && names[found.value] == name && name != ""
    && Far(lower, key, name) <= RepairThreshold(key)
  }

  ghost function FixKey(lower: string -> string, fields: Fields, key: string, names: seq<string>): Fields
    requires key in fields
  {
    if key in names then fields
    else
      var found := Nearest(lower, key, names);
      if found.Some? && StandsFor(lower, key, names, names[found.value]) && names[found.value] !in fields then
        fields[names[found.value] := fields[key]] - {key}
      else
        fields - {key}
  }

  predicate Distinct(keys: seq<string>) {
    forall i, j :: 0 <= i < j < |keys| ==> keys[i] != keys[j]
  }

  predicate AllIn(keys: seq<string>, fields: Fields) {
    forall i :: 0 <= i < |keys| ==> keys[i] in fields
  }

  lemma {:induction false} FixKeyKeeps(lower: string -> string, fields: Fields, keys: seq<string>, names: seq<string>)
    requires Distinct(keys) && AllIn(keys, fields) && |keys| > 0
    ensures Distinct(keys[1..]) && AllIn(keys[1..], FixKey(lower, fields, keys[0], names))
  {
  }

  ghost function FixKeys(lower: string -> string, fields: Fields, keys: seq<string>, names: seq<string>): Fields
    requires Distinct(keys) && AllIn(keys, fields)
    decreases |keys|
  {
    if |keys| == 0 then fields
    else
      FixKeyKeeps(lower, fields, keys, names);
      FixKeys(lower, FixKey(lower, fields, keys[0], names), keys[1..], names)
  }

  /** The first of the keys that is not declared and stands for the name. */
  ghost function FirstFor(lower: string -> string, keys: seq<string>, names: seq<string>, name: string): (key: Option<string>)
    ensures key.Some? ==> key.value in keys && key.value !in names && StandsFor(lower, key.value, names, name)
  {
    if |keys| == 0 then None
    else if keys[0] !in names && StandsFor(lower, keys[0], names, name) then Some(keys[0])
    else FirstFor(lower, keys[1..], names, name)
  }

  /** What a declared key holds in the end: its own value, or else that of the first key that stands for it. */
  ghost function Settled(lower: string -> string, fields: Fields, keys: seq<string>, names: seq<string>, name: string): Option<Value>
    requires AllIn(keys, fields)
  {
    if name in fields then Some(fields[name])
    else
      var key := FirstFor(lower, keys, names, name);
      if key.None? then None else Some(fields[key.value])
  }

  ghost function Lookup(fields: Fields, key: string): Option<Value> {
    if key in fields then Some(fields[key]) else None
  }

  lemma {:induction false} FirstStep(lower: string -> string, fields: Fields, keys: seq<string>, names: seq<string>, name: string)
    requires Distinct(keys) && AllIn(keys, fields) && |keys| > 0 && name in names
    ensures var fixed := FixKey(lower, fields, keys[0], names);
            AllIn(keys[1..], fixed) && Settled(lower, fields, keys, names, name) == Settled(lower, fixed, keys[1..], names, name)
  {
    hide Distance;
    FixKeyKeeps(lower, fields, keys, names);
  }

  /** Exactly this happens to the declared keys. */
  lemma {:induction false} DeclaredKeysSettle(lower: string -> string, fields: Fields, keys: seq<string>, names: seq<string>, name: string)
    requires Distinct(keys) && AllIn(keys, fields) && name in names
    ensures Lookup(FixKeys(lower, fields, keys, names), name) == Settled(lower, fields, keys, names, name)
    decreases |keys|
  {
    hide Distance;
    if |keys| > 0 {
      FirstStep(lower, fields, keys, names, name);
      FixKeyKeeps(lower, fields, keys, names);
      DeclaredKeysSettle(lower, FixKey(lower, fields, keys[0], names), keys[1..], names, name);
    }
  }

  /** And every undeclared key goes. */
  lemma {:induction false} UndeclaredKeysGo(lower: string -> string, fields: Fields, keys: seq<string>, names: seq<string>, key: string)
    requires Distinct(keys) && AllIn(keys, fields) && key !in names
    ensures key in FixKeys(lower, fields, keys, names) <==> key in fields && key !in keys
    decreases |keys|
  {
    hide Distance;
    if |keys| > 0 {
      FixKeyKeeps(lower, fields, keys, names);
      UndeclaredKeysGo(lower, FixKey(lower, fields, keys[0], names), keys[1..], names, key);
      assert keys == [keys[0]] + keys[1..];
    }
  }

  lemma {:induction false} DeclaredKeysStay(lower: string -> string, fields: Fields, keys: seq<string>, names: seq<string>)
    requires Distinct(keys) && AllIn(keys, fields) && (forall k :: k in keys ==> k in names)
    ensures FixKeys(lower, fields, keys, names) == fields
    decreases |keys|
  {
    hide Distance;
    if |keys| > 0 {
      FixKeyKeeps(lower, fields, keys, names);
      DeclaredKeysStay(lower, fields, keys[1..], names);
    }
  }

  ghost function FixAllKeys(lower: string -> string, fields: Fields, declared: set<string>): Fields {
    KeysOf(fields);
    FixKeys(lower, fields, SortedKeys(fields.Keys), SortedKeys(declared))
  }

  lemma {:induction false} KeysOf(fields: Fields)
    ensures Distinct(SortedKeys(fields.Keys)) && AllIn(SortedKeys(fields.Keys), fields)
  {
    var keys := SortedKeys(fields.Keys);
    AscendingIsDistinct(keys);
    forall i | 0 <= i < |keys| ensures keys[i] in fields {
      assert keys[i] in KeySet(keys);
    }
  }

  lemma {:induction false} SortedMembers(keys: set<string>, key: string)
    ensures key in SortedKeys(keys) <==> key in keys
  {
    assert key in KeySet(SortedKeys(keys)) <==> key in keys;
  }

  // ----- Correcting the verb -----

  datatype Correction = Keep | CorrectTo(match': string) | Refuse(match': string)

  ghost function CorrectVerb(lower: string -> string, catalog: Catalog, given: string): Correction {
    if given == "" || given in catalog.verbs then Keep
    else
      var found := Nearest(lower, given, catalog.verbs);
      if found.None? || !StandsFor(lower, given, catalog.verbs, catalog.verbs[found.value]) then Keep
      else if catalog.verbs[found.value] in catalog.destructive then Refuse(catalog.verbs[found.value])
      else CorrectTo(catalog.verbs[found.value])
  }

  ghost function VerbCorrection(lower: string -> string, tool: string, fields: Fields): Correction {
    var catalog := ToolVerbs(tool);
    if catalog.Some? && "verb" in fields && fields["verb"].Str? then CorrectVerb(lower, catalog.value, fields["verb"].text)
    else Keep
  }

  // ----- The whole repair -----

  /** The object after folding and key repair, before the verb is looked at. */
  ghost function KeysRepaired(lower: string -> string, fields: Fields, declared: set<string>): Fields {
    FixAllKeys(lower, FoldAlias(fields, declared), declared)
  }

  ghost function RepairedFields(lower: string -> string, tool: string, fields: Fields, declared: set<string>): Fields {
    var fixed := KeysRepaired(lower, fields, declared);
    match VerbCorrection(lower, tool, fixed)
    case CorrectTo(verb) => fixed["verb" := Str(verb)]
    case _ => fixed
  }

  ghost function KeyWarning(lower: string -> string, fields: Fields, key: string, names: seq<string>): seq<Warning> {
    if key in names then []
    else
      var found := Nearest(lower, key, names);
      if found.None? then [Dropped(key, "")]
      else if StandsFor(lower, key, names, names[found.value]) && names[found.value] !in fields then
        [Renamed(key, names[found.value])]
      else [Dropped(key, names[found.value])]
  }

  ghost function KeyWarnings(lower: string -> string, fields: Fields, keys: seq<string>, names: seq<string>): seq<Warning>
    requires Distinct(keys) && AllIn(keys, fields)
    decreases |keys|
  {
    if |keys| == 0 then []
    else
      FixKeyKeeps(lower, fields, keys, names);
      KeyWarning(lower, fields, keys[0], names)
      + KeyWarnings(lower, FixKey(lower, fields, keys[0], names), keys[1..], names)
  }

  ghost function AllWarnings(lower: string -> string, tool: string, fields: Fields, declared: set<string>): seq<Warning> {
    var alias, folded := AliasOf(fields, declared), FoldAlias(fields, declared);
    KeysOf(folded);
    var fixed := KeysRepaired(lower, fields, declared);
    (if alias.Some? then [Folded(alias.value)] else [])
    + KeyWarnings(lower, folded, SortedKeys(folded.Keys), SortedKeys(declared))
    + match VerbCorrection(lower, tool, fixed)
      case CorrectTo(verb) => [Corrected(fixed["verb"].text, verb)]
      case _ => []
  }

  ghost function Repair(lower: string -> string, tool: string, declared: set<string>, arguments: Arguments): Outcome {
    if declared == {} || !arguments.Object? then Unchanged
    else
      var fixed := KeysRepaired(lower, arguments.fields, declared);
      var correction := VerbCorrection(lower, tool, fixed);
      var warnings := AllWarnings(lower, tool, arguments.fields, declared);
      if correction.Refuse? then Refused(fixed["verb"].text, correction.match')
      else if warnings == [] then Unchanged
      else Repaired(RepairedFields(lower, tool, arguments.fields, declared), warnings)
  }

  // ----- The repair, step by step -----

  method FoldStep(fields: Fields, declared: set<string>) returns (repaired: Fields, warnings: seq<Warning>)
    ensures repaired == FoldAlias(fields, declared)
    ensures warnings == var alias := AliasOf(fields, declared); if alias.Some? then [Folded(alias.value)] else []
  {
    repaired, warnings := fields, [];
    if "verb" in declared && "verb" !in repaired {
      assert VERB_ALIASES[0..] == VERB_ALIASES;
      for i := 0 to |VERB_ALIASES|
        invariant repaired == fields && warnings == []
        invariant AliasOf(fields, declared) == FirstAlias(fields, declared, VERB_ALIASES[i..])
      {
        var alias := VERB_ALIASES[i];
        assert VERB_ALIASES[i..][0] == alias && VERB_ALIASES[i..][1..] == VERB_ALIASES[i + 1..];
        if alias !in repaired || alias in declared {
          continue;
        }
        var candidate := repaired[alias];
        if candidate.Str? && candidate.text != "" {
          repaired := repaired["verb" := Str(candidate.text)];
          repaired := repaired - {alias};
          warnings := warnings + [Folded(alias)];
          break;
        }
      }
    }
  }

  method FixOneKey(lower: string -> string, fields: Fields, key: string, names: seq<string>)
    returns (repaired: Fields, warnings: seq<Warning>)
    requires key in fields
    ensures repaired == FixKey(lower, fields, key, names) && warnings == KeyWarning(lower, fields, key, names)
  {
    hide Distance;
    repaired, warnings := fields, [];
    if key in names {
      return;
    }
    var match', distance := FindNearest(lower, key, names);
    if match' != "" && distance <= RepairThreshold(key) {
      if match' !in repaired {
        repaired := repaired[match' := repaired[key]];
        repaired := repaired - {key};
        return repaired, [Renamed(key, match')];
      }
    }
    repaired := repaired - {key};
    return repaired, [Dropped(key, match')];
  }

  method FixStep(lower: string -> string, fields: Fields, declared: set<string>)
    returns (repaired: Fields, warnings: seq<Warning>)
    ensures repaired == FixAllKeys(lower, fields, declared)
    ensures Distinct(SortedKeys(fields.Keys)) && AllIn(SortedKeys(fields.Keys), fields)
    ensures warnings == KeyWarnings(lower, fields, SortedKeys(fields.Keys), SortedKeys(declared))
  {
    hide Distance;
    repaired, warnings := fields, [];
    var names := SortKeys(declared);
    var keys := SortKeys(repaired.Keys);
    KeysOf(fields);
    assert keys[0..] == keys;
    for i := 0 to |keys|
      invariant Distinct(keys[i..]) && AllIn(keys[i..], repaired)
      invariant FixKeys(lower, repaired, keys[i..], names) == FixKeys(lower, fields, keys, names)
      invariant warnings + KeyWarnings(lower, repaired, keys[i..], names) == KeyWarnings(lower, fields, keys, names)
    {
      assert keys[i..][0] == keys[i] && keys[i..][1..] == keys[i + 1..];
      FixKeyKeeps(lower, repaired, keys[i..], names);
      var more;
      Regroup3(warnings, KeyWarning(lower, repaired, keys[i], names),
               KeyWarnings(lower, FixKey(lower, repaired, keys[i], names), keys[i + 1..], names));
      repaired, more := FixOneKey(lower, repaired, keys[i], names);
      warnings := warnings + more;
    }
    assert warnings + [] == warnings;
  }

  method VerbStep(lower: string -> string, tool: string, fields: Fields) returns (correction: Correction)
    ensures correction == VerbCorrection(lower, tool, fields)
    ensures !correction.Keep? ==> "verb" in fields && fields["verb"].Str?
  {
    hide Distance;
    var catalog := ToolVerbs(tool);
    if catalog.Some? && "verb" in fields && fields["verb"].Str? {
      var given := fields["verb"].text;
      if given != "" && given !in catalog.value.verbs {
        var match', distance := FindNearest(lower, given, catalog.value.verbs);
        if match' == "" || distance > RepairThreshold(given) {
          return Keep;
        }
        return if match' in catalog.value.destructive then Refuse(match') else CorrectTo(match');
      }
    }
    return Keep;
  }

  method RepairArguments(lower: string -> string, tool: string, declared: set<string>, arguments: Arguments)
    returns (outcome: Outcome)
    ensures outcome == Repair(lower, tool, declared, arguments)
  {
    hide Distance;
    if declared == {} || !arguments.Object? {
      return Unchanged;
    }
    var repaired, warnings := FoldStep(arguments.fields, declared);
    var more;
    repaired, more := FixStep(lower, repaired, declared);
    warnings := warnings + more;
    var correction := VerbStep(lower, tool, repaired);
    match correction {
      case Keep =>
      case Refuse(match') => return Refused(repaired["verb"].text, match');
      case CorrectTo(match') =>
        warnings := warnings + [Corrected(repaired["verb"].text, match')];
        repaired := repaired["verb" := Str(match')];
    }
    assert warnings + [] == warnings;
    return if warnings == [] then Unchanged else Repaired(repaired, warnings);
  }

  // ----- What a repair may do -----

  lemma {:induction false} FixedKeysAreDeclared(lower: string -> string, fields: Fields, declared: set<string>, key: string)
    requires key in FixAllKeys(lower, fields, declared)
    ensures key in declared
  {
    hide Distance;
    KeysOf(fields);
    SortedMembers(declared, key);
    SortedMembers(fields.Keys, key);
    if key !in declared {
      UndeclaredKeysGo(lower, fields, SortedKeys(fields.Keys), SortedKeys(declared), key);
    }
  }

  /** Every key that comes out is declared. */
  lemma {:induction false} OutputKeysAreDeclared(lower: string -> string, tool: string, declared: set<string>, arguments: Arguments, key: string)
    requires var outcome := Repair(lower, tool, declared, arguments); outcome.Repaired? && key in outcome.fields
    ensures key in declared
  {
    hide Distance;
    var folded := FoldAlias(arguments.fields, declared);
    var fixed := FixAllKeys(lower, folded, declared);
    if key in fixed {
      FixedKeysAreDeclared(lower, folded, declared, key);
    }
  }

  /** A declared key other than the verb keeps the value it was given. */
  lemma {:induction false} SuppliedValuesAreKept(lower: string -> string, tool: string, declared: set<string>, arguments: Arguments, key: string)
    requires var outcome := Repair(lower, tool, declared, arguments); outcome.Repaired?
    requires key in declared && key in arguments.fields && key != "verb"
    ensures var out := Repair(lower, tool, declared, arguments).fields; key in out && out[key] == arguments.fields[key]
  {
    hide Distance;
    var folded := FoldAlias(arguments.fields, declared);
    KeysOf(folded);
    SortedMembers(declared, key);
    DeclaredKeysSettle(lower, folded, SortedKeys(folded.Keys), SortedKeys(declared), key);
  }

  lemma {:induction false} FixedValuesAreSupplied(lower: string -> string, fields: Fields, declared: set<string>, key: string)
    requires key in FixAllKeys(lower, fields, declared)
    ensures exists k :: k in fields && fields[k] == FixAllKeys(lower, fields, declared)[key]
  {
    hide Distance;
    KeysOf(fields);
    FixedKeysAreDeclared(lower, fields, declared, key);
    SortedMembers(declared, key);
    DeclaredKeysSettle(lower, fields, SortedKeys(fields.Keys), SortedKeys(declared), key);
    var source := FirstFor(lower, SortedKeys(fields.Keys), SortedKeys(declared), key);
    assert key !in fields ==> source.Some? && source.value in fields;
  }

  lemma {:induction false} FoldedValuesAreSupplied(fields: Fields, declared: set<string>, key: string)
    requires key in FoldAlias(fields, declared)
    ensures exists k :: k in fields && fields[k] == FoldAlias(fields, declared)[key]
  {
    var alias := AliasOf(fields, declared);
    assert key !in fields || fields[key] != FoldAlias(fields, declared)[key] ==> alias.Some? && alias.value in fields;
  }

  /** No value is invented: each was supplied under some key, or is the nearest known verb, which then does no harm. */
  lemma {:induction false} OutputValuesAreSupplied(lower: string -> string, tool: string, declared: set<string>, arguments: Arguments, key: string)
    requires var outcome := Repair(lower, tool, declared, arguments); outcome.Repaired? && key in outcome.fields
    ensures var value := Repair(lower, tool, declared, arguments).fields[key];
            || (exists k :: k in arguments.fields && arguments.fields[k] == value)
            || (&& key == "verb" && value.Str? && ToolVerbs(tool).Some?
                && value.text in ToolVerbs(tool).value.verbs && value.text !in ToolVerbs(tool).value.destructive)
  {
    hide Distance;
    var fields := arguments.fields;
    var folded := FoldAlias(fields, declared);
    var fixed := FixAllKeys(lower, folded, declared);
    var correction := VerbCorrection(lower, tool, fixed);
    if key != "verb" || !correction.CorrectTo? {
      FixedValuesAreSupplied(lower, folded, declared, key);
      var k :| k in folded && folded[k] == fixed[key];
      FoldedValuesAreSupplied(fields, declared, k);
    }
  }

  /** A verb that changes files is never guessed: it was a string in the input. */
  lemma {:induction false} DestructiveVerbsAreLiteral(lower: string -> string, tool: string, declared: set<string>, arguments: Arguments)
    requires var outcome := Repair(lower, tool, declared, arguments);
             outcome.Repaired? && "verb" in outcome.fields && outcome.fields["verb"].Str? && ToolVerbs(tool).Some?
             && outcome.fields["verb"].text in ToolVerbs(tool).value.destructive
    ensures exists k :: k in arguments.fields && arguments.fields[k] == Repair(lower, tool, declared, arguments).fields["verb"]
  {
    hide Distance;
    OutputValuesAreSupplied(lower, tool, declared, arguments, "verb");
  }

  // ----- When nothing is done -----

  ghost predicate AllDeclared(fields: Fields, declared: set<string>) {
    forall k :: k in fields ==> k in declared
  }

  lemma {:induction false} QuietOnlyOnDeclared(lower: string -> string, fields: Fields, keys: seq<string>, names: seq<string>)
    requires Distinct(keys) && AllIn(keys, fields)
    ensures KeyWarnings(lower, fields, keys, names) == [] <==> forall k :: k in keys ==> k in names
    decreases |keys|
  {
    hide Distance;
    if |keys| > 0 {
      FixKeyKeeps(lower, fields, keys, names);
      QuietOnlyOnDeclared(lower, FixKey(lower, fields, keys[0], names), keys[1..], names);
      assert keys == [keys[0]] + keys[1..];
    }
  }

  lemma {:induction false} DeclaredIsQuiet(lower: string -> string, tool: string, fields: Fields, declared: set<string>)
    ensures AllDeclared(fields, declared) ==> KeysRepaired(lower, fields, declared) == fields
    ensures AllWarnings(lower, tool, fields, declared) == []
       <==> AllDeclared(fields, declared) && !VerbCorrection(lower, tool, fields).CorrectTo?
  {
    hide Distance;
    var folded := FoldAlias(fields, declared);
    KeysOf(folded);
    forall k ensures k in SortedKeys(folded.Keys) <==> k in folded { SortedMembers(folded.Keys, k); }
    forall k ensures k in SortedKeys(declared) <==> k in declared { SortedMembers(declared, k); }
    QuietOnlyOnDeclared(lower, folded, SortedKeys(folded.Keys), SortedKeys(declared));
    if AllDeclared(folded, declared) {
      DeclaredKeysStay(lower, folded, SortedKeys(folded.Keys), SortedKeys(declared));
    }
  }

  /** A call is left alone exactly when there is nothing to repair in it. */
  lemma {:induction false} ValidCallsAreUnchanged(lower: string -> string, tool: string, declared: set<string>, arguments: Arguments)
    ensures Repair(lower, tool, declared, arguments) == Unchanged
       <==> declared == {} || !arguments.Object?
            || (AllDeclared(arguments.fields, declared) && VerbCorrection(lower, tool, arguments.fields).Keep?)
  {
    hide Distance;
    if arguments.Object? {
      DeclaredIsQuiet(lower, tool, arguments.fields, declared);
    }
  }

  lemma {:induction false} CorrectedVerbIsKnown(lower: string -> string, tool: string, fields: Fields)
    ensures match VerbCorrection(lower, tool, fields)
            case CorrectTo(verb) => VerbCorrection(lower, tool, fields["verb" := Str(verb)]) == Keep
            case _ => true
  {
    hide Distance;
  }

  /** A repaired call needs no second repair. */
  lemma {:induction false} RepairIsIdempotent(lower: string -> string, tool: string, declared: set<string>, arguments: Arguments)
    requires Repair(lower, tool, declared, arguments).Repaired?
    ensures Repair(lower, tool, declared, Object(Repair(lower, tool, declared, arguments).fields)) == Unchanged
  {
    hide Distance, FixAllKeys, AllWarnings, CorrectVerb;
    var out := Repair(lower, tool, declared, arguments).fields;
    forall k | k in out ensures k in declared {
      OutputKeysAreDeclared(lower, tool, declared, arguments, k);
    }
    CorrectedVerbIsKnown(lower, tool, KeysRepaired(lower, arguments.fields, declared));
    ValidCallsAreUnchanged(lower, tool, declared, Object(out));
  }

  // ----- What is known, and how far a correction reaches -----

  /** One edit for a name of up to four bytes, two up to eight, three beyond. */
  predicate WithinReach(name: string, distance: nat) {
    if |name| < 5 then distance < 2 else if |name| < 9 then distance < 3 else distance < 4
  }

  /** An undeclared key gives way to its nearest declared name, if that is free and within reach, and goes otherwise. */
  lemma {:induction false} RenamedWithinReach(lower: string -> string, fields: Fields, key: string, names: seq<string>, k: nat)
    requires key in fields && key !in names && IsNearest(lower, key, names, k) && names[k] != "" && names[k] !in fields
    ensures var fixed := FixKey(lower, fields, key, names);
            fixed == if WithinReach(key, Far(lower, key, names[k])) then (fields - {key})[names[k] := fields[key]] else fields - {key}
  {
    hide Distance;
    NearestIsUnique(lower, key, names, k);
    assert names[k] != key;
  }

  /** An unknown verb is corrected to its nearest known one within reach, refused if that one does harm, and left otherwise. */
  lemma {:induction false} CorrectedWithinReach(lower: string -> string, catalog: Catalog, given: string, k: nat)
    requires given != "" && given !in catalog.verbs && IsNearest(lower, given, catalog.verbs, k) && catalog.verbs[k] != ""
    ensures var verb := catalog.verbs[k];
            CorrectVerb(lower, catalog, given)
            == if !WithinReach(given, Far(lower, given, verb)) then Keep
               else if verb in catalog.destructive then Refuse(verb) else CorrectTo(verb)
  {
    hide Distance;
    NearestIsUnique(lower, given, catalog.verbs, k);
  }

  /** A verb that two known ones are equally near to is left alone. */
  lemma {:induction false} TiesAreLeftAlone(lower: string -> string, catalog: Catalog, given: string)
    requires forall k :: !IsNearest(lower, given, catalog.verbs, k)
    ensures CorrectVerb(lower, catalog, given) == Keep
  {
    hide Distance;
  }

  /** The verbs of each tool, and those that do harm. */
  lemma {:induction false} VerbsOfTools(tool: string, verb: string)
    ensures ToolVerbs(tool).Some? <==> tool == "light_file" || tool == "light_bash" || tool == "light_ops"
    ensures ToolVerbs(tool).Some? ==>
              (verb in ToolVerbs(tool).value.destructive
               <==> tool == "light_file" && verb in {"write", "edit", "sed", "rename", "rewrite", "vault_restore"})
    ensures ToolVerbs(tool).Some? ==>
              (verb in ToolVerbs(tool).value.verbs
               <==> verb in (if tool == "light_file" then
                               {"read", "list", "symbol", "outline", "locate", "diff", "identity", "vault_list",
                                "write", "edit", "sed", "rename", "rewrite", "vault_restore"}
                             else if tool == "light_bash" then {"status", "collect", "cancel"}
                             else {"list_services", "probe_service", "probe_port", "probe_process", "probe_file", "log_grep",
                                   "log_correlate", "log_investigate", "log_window", "log_trace", "log_search", "log_errors",
                                   "log_since", "status", "collect", "cancel"}))
  {
  }

  /** None of the six verbs that change files comes out of a repair unless it was a string in the input. */
  lemma {:induction false} FileVerbsAreNeverGuessed(lower: string -> string, declared: set<string>, arguments: Arguments, verb: string)
    requires verb in {"write", "edit", "sed", "rename", "rewrite", "vault_restore"}
    requires var outcome := Repair(lower, "light_file", declared, arguments);
             outcome.Repaired? && "verb" in outcome.fields && outcome.fields["verb"] == Str(verb)
    ensures exists k :: k in arguments.fields && arguments.fields[k] == Str(verb)
  {
    hide Repair;
    VerbsOfTools("light_file", verb);
    DestructiveVerbsAreLiteral(lower, "light_file", declared, arguments);
  }

  /** Given, not declared, and a string with something in it. */
  predicate IsSpareText(fields: Fields, declared: set<string>, key: string) {
    key in fields && key !in declared && fields[key].Str? && |fields[key].text| > 0
  }

  /** The first alias in this order that can stand for it becomes the verb, when one is declared and missing. */
  lemma {:induction false} FirstAliasFolds(fields: Fields, declared: set<string>, i: nat)
    requires i < 6
    ensures var aliases := ["cmd", "action", "op", "mode", "subcommand", "operation"];
            (&& "verb" in declared && "verb" !in fields
             && (forall j :: 0 <= j < i ==> !IsSpareText(fields, declared, aliases[j])) && IsSpareText(fields, declared, aliases[i]) ==>
               FoldAlias(fields, declared) == (fields - {aliases[i]})["verb" := fields[aliases[i]]])
    ensures var aliases := ["cmd", "action", "op", "mode", "subcommand", "operation"];
            "verb" !in declared || "verb" in fields || (forall j :: 0 <= j < 6 ==> !IsSpareText(fields, declared, aliases[j])) ==>
              FoldAlias(fields, declared) == fields
  {
    var aliases := ["cmd", "action", "op", "mode", "subcommand", "operation"];
    assert forall j :: 0 <= j < 6 ==> (IsSpareText(fields, declared, aliases[j]) <==> CanFold(fields, declared, aliases[j]));
    FirstAliasIs(fields, declared, aliases, i);
    NoAlias(fields, declared, aliases);
  }

  lemma {:induction false} FirstAliasIs(fields: Fields, declared: set<string>, aliases: seq<string>, i: nat)
    requires i < |aliases|
    ensures (forall j :: 0 <= j < i ==> !CanFold(fields, declared, aliases[j])) && CanFold(fields, declared, aliases[i]) ==>
              FirstAlias(fields, declared, aliases) == Some(aliases[i])
  {
    if i > 0 {
      FirstAliasIs(fields, declared, aliases[1..], i - 1);
      assert forall j :: 0 <= j < i - 1 ==> aliases[1..][j] == aliases[j + 1];
    }
  }

  lemma {:induction false} NoAlias(fields: Fields, declared: set<string>, aliases: seq<string>)
    ensures (forall j :: 0 <= j < |aliases| ==> !CanFold(fields, declared, aliases[j])) ==> FirstAlias(fields, declared, aliases) == None
  {
    if |aliases| > 0 {
      NoAlias(fields, declared, aliases[1..]);
      assert forall j :: 0 <= j < |aliases| - 1 ==> aliases[1..][j] == aliases[j + 1];
    }
  }

  // ----- What a repair comes to -----

  /** The verb that the key-repaired object holds as a string, if the tool has verbs. */
  ghost predicate HasVerb(tool: string, fields: Fields, given: string) {
    (tool == "light_file" || tool == "light_bash" || tool == "light_ops") && "verb" in fields && fields["verb"] == Str(given)
  }

  lemma {:induction false} ToolsWithVerbs(tool: string)
    ensures ToolVerbs(tool).Some? <==> tool == "light_file" || tool == "light_bash" || tool == "light_ops"
  {
  }

  /**
   Behind the keys, the verb alone changes: it is corrected, or its correction is refused and with it the call, or it
   stays; and it stays where the tool has no verbs or there is no string.
   */
  lemma {:induction false} RepairsTheVerb(lower: string -> string, tool: string, declared: set<string>, fields: Fields, given: string)
    requires declared != {}
    ensures var outcome, fixed := Repair(lower, tool, declared, Object(fields)), KeysRepaired(lower, fields, declared);
            && (HasVerb(tool, fixed, given) ==>
                  match CorrectVerb(lower, ToolVerbs(tool).value, given)
                  case Refuse(verb) => outcome == Refused(given, verb)
                  case CorrectTo(verb) => outcome.Repaired? && outcome.fields == fixed["verb" := Str(verb)]
                                          && Corrected(given, verb) in outcome.warnings
                  case Keep => !outcome.Refused? && (outcome.Repaired? ==> outcome.fields == fixed))
            && ((forall text :: !HasVerb(tool, fixed, text)) ==> !outcome.Refused? && (outcome.Repaired? ==> outcome.fields == fixed))
  {
    hide KeysRepaired, CorrectVerb, ToolVerbs, AllWarnings;
    var fixed := KeysRepaired(lower, fields, declared);
    ToolsWithVerbs(tool);
    CorrectionIsReported(lower, tool, declared, fields);
    if "verb" in fixed && fixed["verb"].Str? {
      assert HasVerb(tool, fixed, fixed["verb"].text) <==> ToolVerbs(tool).Some?;
    }
  }

  lemma {:induction false} CorrectionIsReported(lower: string -> string, tool: string, declared: set<string>, fields: Fields)
    ensures var fixed, warnings := KeysRepaired(lower, fields, declared), AllWarnings(lower, tool, fields, declared);
            match VerbCorrection(lower, tool, fixed)
            case CorrectTo(verb) => "verb" in fixed && fixed["verb"].Str? && Corrected(fixed["verb"].text, verb) in warnings
            case _ => true
  {
    hide KeysRepaired, CorrectVerb, ToolVerbs, KeyWarnings, FoldAlias, AliasOf;
    KeysOf(FoldAlias(fields, declared));
  }

  /** What a warning says about a key. */
  predicate IsAbout(warning: Warning, key: string) {
    (warning.Renamed? || warning.Dropped?) && warning.key == key
  }

  /** A warning that a key was renamed or dropped is true of the nearest declared name, and of where the value went. */
  ghost predicate IsTrue(lower: string -> string, warning: Warning, names: seq<string>) {
    match warning
    case Renamed(key, name) => exists k: nat :: IsNearest(lower, key, names, k) && names[k] == name && WithinReach(key, Far(lower, key, name))
    case Dropped(key, closest) =>
      (exists k: nat :: IsNearest(lower, key, names, k) && names[k] == closest) || (closest == "" && forall k: nat :: !IsNearest(lower, key, names, k))
    case _ => true
  }

  /** Every undeclared key that is met is reported, every report is about one, and what it says is so. */
  lemma {:induction false} WarningsAreTrue(lower: string -> string, fields: Fields, keys: seq<string>, names: seq<string>, key: string)
    requires Distinct(keys) && AllIn(keys, fields)
    ensures (exists w :: w in KeyWarnings(lower, fields, keys, names) && IsAbout(w, key)) <==> key in keys && key !in names
    ensures forall w :: w in KeyWarnings(lower, fields, keys, names) ==> IsTrue(lower, w, names) && (w.Renamed? || w.Dropped?)
    decreases |keys|
  {
    hide Distance;
    if |keys| > 0 {
      FixKeyKeeps(lower, fields, keys, names);
      var fixed := FixKey(lower, fields, keys[0], names);
      WarningsAreTrue(lower, fixed, keys[1..], names, key);
      assert keys == [keys[0]] + keys[1..];
      FirstWarning(lower, fields, keys[0], names);
    }
  }

  lemma {:induction false} FirstWarning(lower: string -> string, fields: Fields, key: string, names: seq<string>)
    requires key in fields
    ensures var warnings := KeyWarning(lower, fields, key, names);
            && (key in names ==> warnings == [])
            && (key !in names ==>
                  && |warnings| == 1 && IsAbout(warnings[0], key) && IsTrue(lower, warnings[0], names)
                  && (warnings[0].Renamed? <==> exists k: nat ::
                        && IsNearest(lower, key, names, k) && names[k] !in fields && names[k] != ""
                        && WithinReach(key, Far(lower, key, names[k]))))
  {
    hide Distance;
    forall k: nat | IsNearest(lower, key, names, k) ensures Nearest(lower, key, names) == Some(k) {
      NearestIsUnique(lower, key, names, k);
    }
  }

  /** A declared key that was not given and is in the result is one that is reported as a new name. */
  lemma {:induction false} NewNamesAreReported(lower: string -> string, fields: Fields, keys: seq<string>, names: seq<string>, name: string)
    requires Distinct(keys) && AllIn(keys, fields) && name !in fields && name in FixKeys(lower, fields, keys, names)
    ensures exists key :: key in keys && Renamed(key, name) in KeyWarnings(lower, fields, keys, names)
    decreases |keys|
  {
    hide Distance, StandsFor;
    FixKeyKeeps(lower, fields, keys, names);
    var fixed := FixKey(lower, fields, keys[0], names);
    var first := KeyWarning(lower, fields, keys[0], names);
    if name in fixed {
      assert Renamed(keys[0], name) in first;
      assert keys[0] in keys;
    } else {
      NewNamesAreReported(lower, fixed, keys[1..], names, name);
      var key :| key in keys[1..] && Renamed(key, name) in KeyWarnings(lower, fixed, keys[1..], names);
      assert key in keys;
    }
  }

  /** A key that is reported as renamed left its value under the new name, which was free. */
  lemma {:induction false} RenamedGoesThere(lower: string -> string, fields: Fields, keys: seq<string>, names: seq<string>, key: string, name: string)
    requires Distinct(keys) && AllIn(keys, fields) && Renamed(key, name) in KeyWarnings(lower, fields, keys, names)
    ensures key in fields && name in names && name !in fields
    ensures Lookup(FixKeys(lower, fields, keys, names), name) == Some(fields[key])
    decreases |keys|
  {
    hide Distance;
    FixKeyKeeps(lower, fields, keys, names);
    var fixed := FixKey(lower, fields, keys[0], names);
    if Renamed(key, name) in KeyWarning(lower, fields, keys[0], names) {
      DeclaredKeysSettle(lower, fixed, keys[1..], names, name);
    } else {
      RenamedGoesThere(lower, fixed, keys[1..], names, key, name);
      WarningsAreTrue(lower, fixed, keys[1..], names, key);
      assert IsAbout(Renamed(key, name), key);
    }
  }
}
