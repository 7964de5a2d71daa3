# A verified model of light-tools

light-tools gives a language model bounded views of files, commands and logs, and lets it change files.  This project
models the parts of it that transform text, or keep state, under a stated promise, and proves the promises.  A module
stands for a source file or a part of one; where the source loops and updates, a method with invariants is proved
against a function, and the lemmas are about that function.

- **Line diff and patch** (`LineDiff`, `UnifiedDiff`, `DiffLaws`, `Patch`, `PatchRoundTrip`, `PatchSites`,
  `PatchExact`, `PatchLaw`, `PatchForms`): the script of a diff is a shortest one, the hunks are exactly the changed
  runs with their context, and patching a text with its diff gives the new text exactly on the pairs that `Patchable`
  describes.
- **Terse codec** (`JsonString`, `JsonLaws`, `KeyOrder`, `TerseEncode`, `TerseDecode`, `TerseReading`,
  `TerseRoundTrip`, `TerseRenderable`, `TerseGrammar`, `TerseParser`, `TersePrinter`): everything that can be
  rendered is decoded from its rendering, so the run-time check of `Format` never rejects, and the parser accepts a
  grammar.
- **Edit engine** (`Brackets`, `Splice`, `EditEngine`, `EditBatch`, `EditLaws`, `TextLaws`): a batch of spans is one
  simultaneous splice, the bracket scan decides a grammar, and what comes out of a batch that does not allow otherwise
  is in that grammar.
- **Argument repair** (`OsaDistance`, `ArgumentRepair`): the three-row distance is the least cost of an alignment; a
  repair is conservative and needs no second one.
- **Capture and restore** (`FileTree`, `SnapshotCapture`, `SnapshotRing`): a restore undoes a command on the paths
  nobody touched since, and nothing else, although writes follow links.
- **Telemetry** (`Telemetry`, `TelemetryPrune`): over every run with failed writes, failed removals and crashes, a load
  counts for every session one past total, the newest published.
- **Read ledger** (`ReadLedger`): map and list against a plain recency list; the early exit of the expiry is exact.
- **Logs** (`TerminalText`, `LineRanges`, `LineSets`, `LogTemplates`, `LogRows`, `Utf8`, `Utf8Laws`, `BudgetCap`, `SpillStore`,
  `LogDelivery`): the line numbers of an outline name the right raw lines, and a view that is not the output comes with
  the way back to it.
- **Command pinning** (`ShellWords`, `ShellGrammar`, `CommandPlan`, `CommandShapes`, `PinnedPlan`, `Pinning`): the
  pinned command is read as exactly the quoted words and planned as the same command on the captured paths.
- **Batch reading** (`BatchRead`): pages are consecutive parts of the sections, and following the cursors ends.
- **Task protocol** (`TaskProtocol`): over all interleavings, when a task is done and how often its result is handed
  out.

What the model takes from its surroundings it takes as parameters: clocks, fresh identifiers, checksums, the umask,
where a link leads, lower-casing, the two regular expressions that strip a line's prefix and find its varying tokens,
the wording for the values of a varying slot, and the size estimate of the terse codec.  A character is a byte in the
modules of logs, batch reading and edit distances, and a code point in those of the terse codec and the edit engine;
elsewhere only ASCII characters are told apart, and either reading will do.  Integers are unbounded except where their
width shows: numerals that are parsed, and the positions at which a patch is searched for, which wrap around.

## Where a promise fails

Each of these is proved with its exact condition; lemmas beside it give inputs where the promise fails.

- *Diff, then patch.* The law holds exactly when the texts differ in a line, both end with a line feed or neither does,
  and every hunk is faithful: no deleted line starts with `-- ` and no inserted one with `++ ` (they print like file
  headers), no line ends in a carriage return, and a hunk without old lines inserts only copies of the line above it.
  In particular no diff from an empty file can be applied to it (`PatchLaw.EmptyFileIsNotPatchable`). With one line of
  context and one old line the last condition never matters (`PatchLaw.DiffThenPatchWithContext`).
- *An empty diff* stands for equal lines only up to four million pairs of lines; beyond, texts that differ in their
  last line feed or in CRLFs alone get a diff that replaces everything (`DiffLaws.EmptyDiff`).
- *A bare string with a quote in it*, which no rendering has, misleads the search that tells tables from lists; all
  other texts of the grammar are decoded (`TerseGrammar.ReadIsDecoded`, `StrayQuoteMisleads`).
- *Searching a place for a hunk* finds the nearest match or none, except that it panics exactly when it comes to a
  position whose end is beyond the largest `int` before it finds a match (`Patch.SearchIsNearest`). A header that names
  line 9223372036854775807 for two lines is enough (`Patch.HighLinePanics`).
- *Line ends of an edited file* survive exactly when they are not mixed (`EditBatch.UniformLineEndsSurvive`,
  `MixedLineEndsChange`).
- *A restore* takes something unreadable for nothing at all. A path that was absent stays occupied by it
  (`SnapshotCapture.RestoreUndoes`, `UnreadableStays`). Where something was, the restore stops exactly when the thing
  can not be overwritten, or can but a link has to come back (`CompletesUnlessStuck`, `UnreadableStops`); a file that
  can be written but not read gets its content back and stays unreadable.
- *Modes* come back only with content: a file whose content is the captured one keeps the mode it has, one that is
  written anew gets the captured mode through the umask (`RestoreUndoesExactly`; `ChangedModeStays` for a command that
  only changes a mode).
- *The budget's branch for text that needs no cut*, called unreachable in its comment, is reached by the empty text
  with a budget of minus one, and by nothing else (`BudgetCap.SomethingIsDropped`).
- *A cut of the first line*, made when neither it nor the last line fits, is labelled as having lost its middle. It has
  lost nothing exactly when there is a place where a character may begin that both of its parts reach, and it shows a
  part of the line twice exactly when there are two (`BudgetCap.CutLosesUnlessMet`). For ASCII these are the lines no
  longer than the room there is, and the lines shorter than it; a line that stands alone is always cut in earnest
  (`CutLosesUnlessRoomy`, `ShortLineIsRepeated`).
- *A template filled with its row* is the line again exactly when no slot mark stands outside the line's tokens
  (`LogTemplates.RefillsBody`, `StrayMarkShows`), and so for every line without a mark.
- *A page of a batch read* fails to move on exactly in a whole budget of continuation bytes, which no valid UTF-8 has
  (`BatchRead.MovesOnUnless`, `ContinuationsStall`).
- *The early exit of the ledger's expiry* is right exactly when no expired entry stands before a live one
  (`ReadLedger.StoppingEarlyIsExact`); calls whose clock never goes back keep it so.
- *A task that is being cancelled* is shown as running again exactly when its goroutine begins after the cancellation
  (`TaskProtocol.AfterCancelling`, `CancellingIsNotFinal`); one that was executing when a cancellation took effect
  never is (`CancellingAnExecutingTaskIsFinal`).

## Model

| member | source | states |
|---|---|---|
| LineDiff.ScriptProjects | internal/filetool/diff.go:72-113 | on every input, above the table limit or not, the kept and deleted lines of the script are the old lines and the kept and inserted ones the new lines |
| LineDiff.ScriptIsOptimal | internal/filetool/diff.go:84-112 | within the limit the kept lines are a common subsequence and no common subsequence is longer |
| LineDiff.FillTable | internal/filetool/diff.go:84-96 | the two descending loops fill every entry with the longest common length of the two suffixes |
| LineDiff.FollowTable | internal/filetool/diff.go:97-112 | the walk over the filled table emits that script |
| LineDiff.Diff | internal/filetool/diff.go:72-113 | both branches together return a script with these two properties |
| DiffLaws.ScriptIsNext | internal/filetool/diff.go:97-112 | which of the shortest scripts it is: equal lines are kept, and a line is deleted before one is inserted unless that costs a common line |
| DiffLaws.LargeScript | internal/filetool/diff.go:74-83 | above four million cells all old lines go and all new ones come |
| UnifiedDiff.HunksAreTheChangedRuns | internal/filetool/diff.go:26-48 | the hunks are disjoint, in order and apart, and cover exactly the operations within the context of a change |
| UnifiedDiff.MergeHunks | internal/filetool/diff.go:37-48 | the merging loop computes those hunks |
| UnifiedDiff.ConsumedLines | internal/filetool/diff.go:115-125 | the two counts are the lengths of the two projections |
| UnifiedDiff.Unified | internal/filetool/diff.go:15-70 | the builder's text is the file header followed by the headers and lines of the hunks |
| DiffLaws.HeaderNamesItsLines | internal/filetool/diff.go:53-62 | a hunk header names the places and numbers of the hunk's lines in both files, an empty side by the line before it |
| DiffLaws.DiffStartsWithNames | internal/filetool/diff.go:51-62 | a diff that is not empty starts with the two names and a hunk |
| DiffLaws.EmptyDiff | internal/filetool/diff.go:15-34 | a diff is empty exactly for equal texts, and for texts of equal lines up to four million cells |
| DiffLaws.LinesMakeTheText | internal/filetool/diff.go:19-20 | the lines of a text and its last line feed make up the text, CRLF folded |
| Patch.ParsePrintedHeader | internal/filetool/diff.go:127-127 | a printed hunk header reads back as the numbers it was printed from |
| PatchForms.HeaderIsRead | internal/filetool/diff.go:127-127 | a line is read as a hunk header exactly when it has that form, counts and text behind it optional, and then with the numbers of its first range, a missing count being one |
| PatchForms.ParseWrittenHeader | internal/filetool/diff.go:168-175 | a header written with or without its counts reads as its start and its old count, or one |
| PatchForms.PatchIsRead | internal/filetool/diff.go:162-215 | exactly these hunks are read when the lines are these hunks: header, body lines as many as the header declares, up to the next header, file header or end |
| PatchForms.LeftOutCountChangesNothing | internal/filetool/diff.go:171-174 | leaving a count of one out of a header, or writing anything behind it, changes nothing of what applying the patch returns |
| PatchForms.NoNewlineChangesNothing | internal/filetool/diff.go:184-187 | neither does a line that says that a newline is missing, put between any lines |
| Patch.SearchIsNearest | internal/filetool/diff.go:217-241 | in 64-bit ints the position found is a match nearest to the expected one, the earlier of two equally near, and none only if there is none within the fuzz; it panics exactly when it first comes to a position whose end is beyond the ints |
| Patch.HighLinePanics | internal/filetool/diff.go:219-223 | a header naming the largest int for two lines is read, and applying its hunk panics |
| Patch.HitMatches | internal/filetool/diff.go:218-228 | whatever the ints do, a position that is taken is a match |
| Patch.FindPosition | internal/filetool/diff.go:217-241 | the search loop gives the position, none, or the panic of that search |
| Patch.ReadBody | internal/filetool/diff.go:178-205 | the inner loop reads a hunk's body and stops where it ends, or reports the bad line |
| Patch.ReadPatch | internal/filetool/diff.go:162-215 | the whole parser, with its count check and errors |
| Patch.ApplyHunks | internal/filetool/diff.go:143-154 | the loop with its running delta applies the hunks one after the other, or names the first that does not match or whose search panics |
| PatchForms.HunkGoesToNearest | internal/filetool/diff.go:143-154 | a hunk replaces its old lines at the nearest match to where the hunks before it moved it, and the next is searched for by as much further |
| Patch.Apply | internal/filetool/diff.go:135-160 | the applied text and the number of hunks, or the error |
| PatchRoundTrip.ParsePrintedPatch | internal/filetool/diff.go:162-215 | a printed diff is read as exactly the hunks a reader can see, and refused exactly when one of them was cut short in its old lines |
| PatchExact.HunksExact | internal/filetool/diff.go:143-154 | the hunks read back turn the old lines into the new ones if all are faithful, and without fuzz only if |
| PatchLaw.DiffThenPatch | internal/filetool/diff.go:15-160 | patching a text with its diff gives the new text if and only if the pair is patchable |
| PatchLaw.DiffThenPatchOneLineNames | internal/filetool/diff.go:15-160 | for file names without a line feed the law needs nothing else of them |
| PatchLaw.DiffThenPatchWithFuzz | internal/filetool/diff.go:135-160 | no fuzz disturbs a patchable pair |
| PatchLaw.DiffThenPatchWithContext | internal/filetool/diff.go:15-160 | with a line of context and an old line, conditions on single lines are enough |
| PatchLaw.EmptyFileIsNotPatchable | internal/filetool/diff.go:56-58 | without fuzz, the diff from an empty file is an error when it is applied to it |
| JsonString.UnquoteQuote | internal/terse/encode.go:117-128 | every string written as a JSON literal reads back as itself |
| JsonLaws.NumbersAreLiterals | internal/terse/decode.go:273-285 | a number is exactly a JSON number literal: minus, integer without leading zeros, fraction, exponent |
| JsonLaws.SpacedNumbersAreRead | internal/terse/decode.go:273-285 | text is read as a number exactly when it is one with white space around it |
| JsonLaws.LiteralsAreRead | internal/terse/decode.go:185-191 | the inside of a string literal is read exactly when it is a run of plain characters and escapes, surrogate pairs as one character and lone surrogates replaced |
| JsonLaws.EscapesWhatItMust | internal/terse/encode.go:122-126 | which characters a literal escapes, and with how many |
| KeyOrder.AscendingIsUnique | internal/terse/encode.go:225-235 | a set of keys has one ascending order, so rendering is deterministic |
| TerseRoundTrip.RoundTrip | internal/terse/encode.go:91-281 | decoding `~` and the rendering of a value gives back the value |
| TerseRoundTrip.RenderIsInjective | internal/terse/encode.go:91-281 | no two values share a rendering |
| TerseRoundTrip.PipeMarksTables | internal/terse/decode.go:226-263 | in any surroundings the search for a top-level bar finds one exactly in arrays rendered as tables |
| TerseRenderable.RenderedIfRenderable | internal/terse/encode.go:91-235 | a value is rendered exactly when it is a scalar, a non-empty object of plain keys and renderable values, or a non-empty list of scalars alone or of such objects with the same keys |
| TerseRenderable.RenderableSurvives | internal/terse/encode.go:91-281 | every such value is rendered, and decoded from its rendering |
| TerseRenderable.BareIfReadBack | internal/terse/encode.go:117-128 | a string is written bare exactly when it holds no quote or backslash and is decoded, bare, as itself |
| TerseRenderable.BareStrings | internal/terse/encode.go:258-282 | the same character by character: no literal of JSON, no delimiter, quote, backslash, white space or control character |
| TerseReading.TableParses | internal/terse/decode.go:109-153 | a rendered table reads back row by row with its keys |
| TerseReading.ObjectParses | internal/terse/decode.go:54-83 | a rendered object reads back with exactly its fields |
| TerseGrammar.DecodedIsRead | internal/terse/decode.go:23-285 | whatever is decoded is a text of the grammar behind a tilde, and the value is what the text stands for |
| TerseGrammar.ReadIsDecoded | internal/terse/decode.go:23-285 | every text of the grammar whose bare strings hold no quote is decoded as what it stands for |
| TerseGrammar.ReadsAsOneValue | internal/terse/decode.go:23-285 | such a text stands for one value only |
| TerseGrammar.StrayQuoteMisleads | internal/terse/decode.go:226-263 | a list of a bare string with a quote in it and of a literal with a bar in it is taken for a table, and refused |
| TerseParser.DecodeDocument | internal/terse/decode.go:23-36 | the parser object decodes a document as the specification says, errors included |
| TerseParser.Parser.Key | internal/terse/decode.go:155-168 | the scan for a terminator takes exactly the key and leaves the terminator unread |
| TerseParser.Parser.QuotedString | internal/terse/decode.go:170-194 | the scan with its escape flag takes exactly one string literal |
| TerseParser.Parser.Atom | internal/terse/decode.go:196-224 | the scan takes exactly one atom, or reports the space in it |
| TerseParser.Parser.TopLevelPipe | internal/terse/decode.go:226-263 | the look-ahead answers as the specification of the search does and moves nothing |
| TerseParser.Parser.Table | internal/terse/decode.go:109-153 | the table loops read keys and rows as the specification says |
| TersePrinter.RenderValueTo | internal/terse/encode.go:91-115 | the buffer gains exactly the rendering, and the result tells whether there is one |
| TersePrinter.RenderTableTo | internal/terse/encode.go:183-223 | the same for tables |
| TersePrinter.Format | internal/terse/encode.go:17-41 | the result is what it would be without decoding the candidate again, so that check never rejects |
| TersePrinter.FormatsExactly | internal/terse/encode.go:17-41 | a document is formatted exactly from a hundred tokens on, when its value is renderable and its rendering smaller in bytes and in tokens |
| Brackets.BalancedIsGrammar | internal/file/apply.go:361-395 | the scan accepts exactly the texts of the bracket grammar with quoted stretches |
| Brackets.IsBalanced | internal/file/apply.go:361-391 | the loop with its stack and flags is that scan |
| Brackets.CrlfKeepsBalance | internal/file/apply.go:136-138 | turning line feeds into CRLF keeps text balanced or unbalanced |
| Splice.ApplyBottomUp | internal/file/apply.go:117-121 | replacing spans from the last to the first is one ascending pass over the original lines |
| Splice.OutsideIsKept | internal/file/apply.go:263-269 | a line outside all spans is kept, moved only by the spans before it |
| Splice.ReplacementLands | internal/file/apply.go:117-121 | every replacement stands whole where its span began, moved only by the spans before it |
| Splice.SplicedLength | internal/file/apply.go:117-121 | the result has no other lines |
| Splice.NeighboursSuffice | internal/file/apply.go:111-116 | comparing neighbours after sorting finds an overlap exactly when some two spans share a line |
| Splice.OrderIsIrrelevant | internal/file/apply.go:111-116 | supplied in another order, the same spans overlap or not, and sort the same |
| EditEngine.LocateGuard | internal/file/apply.go:331-355 | the only place where the start guard stands with the end guard at or after it, or none |
| EditEngine.ResolveSpan | internal/file/apply.go:150-211 | the branches of the resolution, errors in their order |
| EditEngine.ResolvesAsAsked | internal/file/apply.go:150-211 | a span resolves to exactly the start and the end it asks for: without an end line one line or up to the first end guard, with one the width asked for or else up to the first end guard |
| EditEngine.PlainSpanIsOneLine | internal/file/apply.go:166-169 | without an end line and guards a span is its one line, if that is in the file |
| EditEngine.StaysWhereAsked | internal/file/apply.go:150-211 | a span with an end line is left where it was asked for exactly when it lies in the file and its guards hold there |
| EditEngine.StartMovesToTheGuard | internal/file/apply.go:158-164 | a start moves only off a line that is not its guard, to the one place where the guards match |
| EditEngine.CloserOnlyHoldsNothing | internal/file/apply.go:254-261 | a closer-only line holds nothing but white space, closing brackets, semicolons and commas |
| EditLaws.CloserLines | internal/file/apply.go:254-261 | a line is closer-only exactly when it is white space, closers, white space, closers, white space |
| EditEngine.AutoSnap | internal/file/apply.go:213-239 | the end moves by one to three closer-only lines, only if exactly one such move balances the text; several are an error |
| EditLaws.CorrectsTheEnd | internal/file/apply.go:213-252 | the end is corrected exactly to the only place within three closer-only lines that gives a text of the bracket grammar; two such places are an error, none leaves it |
| EditBatch.TransformEdits | internal/file/apply.go:71-148 | a batch is one ascending pass with all spans resolved against the preimage, or the first error |
| EditLaws.SucceedsExactly | internal/file/apply.go:71-148 | a batch succeeds exactly when it is not empty, its mutations are sound, its spans resolve, no two share a line, and the text is in the grammar or may be out of it, a correction included |
| EditBatch.OutputIsBalanced | internal/file/apply.go:122-138 | unless every mutation allows otherwise, the output is in the bracket grammar, CRLF included |
| EditBatch.OnlyTheEndMoves | internal/file/apply.go:122-135 | the edits applied are those resolved, or a single one with its end moved by the unique correction of an unbalanced result |
| EditBatch.PlainEditReplacesOneLine | internal/file/apply.go:71-148 | the plainest edit, by a line number alone, replaces that line and keeps all others |
| EditBatch.AppliedEditsAreGuarded | internal/file/apply.go:150-211 | every edit that is applied answers a span of the batch: its text, at lines where the guards hold, but for a corrected end |
| EditLaws.SpansAreAsked | internal/file/apply.go:95-101 | the spans of a batch are those of its mutations, and the one that the fields of a mutation without spans name |
| EditLaws.ReportTells | internal/file/apply.go:139-143 | the report has one entry for every span, in the order of the lines, apart, each saying where its text was put |
| EditBatch.SupplyOrderIsIrrelevant | internal/file/apply.go:82-121 | spans in another order, or spread differently over the batch, give the same text and report, or fail as well |
| EditBatch.UniformLineEndsSurvive | internal/file/apply.go:75-77 | reading a file and writing it back with its line ends keeps it exactly when they are not mixed |
| EditBatch.MixedLineEndsChange | internal/file/apply.go:136-138 | a file with one line feed and one CRLF comes out with two CRLFs |
| OsaDistance.DistanceIsLeastCost | internal/portable/coerce.go:258-294 | the recurrence is the least cost over all alignments by insertion, deletion, substitution and swap of neighbours, attained by one |
| OsaDistance.DistanceIsSymmetric | internal/portable/coerce.go:261-294 | the distance is symmetric |
| OsaDistance.ZeroOnlyOnEqual | internal/portable/coerce.go:261-294 | it is zero exactly on equal strings |
| OsaDistance.DistanceBounds | internal/portable/coerce.go:261-294 | it lies between the difference of the lengths and the greater length |
| OsaDistance.FillRow | internal/portable/coerce.go:275-289 | from the two rows before, the inner loop fills the next row of the recurrence |
| OsaDistance.EditDistance | internal/portable/coerce.go:261-294 | the three rolling rows compute the distance |
| ArgumentRepair.FindNearest | internal/portable/coerce.go:240-256 | the candidate nearer than every other, or none when there is a tie |
| ArgumentRepair.ExactNameIsNearest | internal/portable/coerce.go:240-256 | a name that is a candidate, no other spelling it in another case, is its own nearest at distance zero |
| ArgumentRepair.RenamedWithinReach | internal/portable/coerce.go:147-167 | an undeclared key is renamed to its nearest declared name, if free, within one edit up to four bytes, two up to eight, three beyond, and goes otherwise |
| ArgumentRepair.CorrectedWithinReach | internal/portable/coerce.go:170-190 | an unknown verb within that reach of the nearest known one is corrected to it, or refused if that one does harm; beyond it is left |
| ArgumentRepair.VerbsOfTools | internal/portable/coerce.go:65-87 | the verbs of each tool, and the six that do harm |
| ArgumentRepair.FileVerbsAreNeverGuessed | internal/portable/coerce.go:23-26 | none of write, edit, sed, rename, rewrite and vault_restore comes out unless it was a string in the input |
| ArgumentRepair.FirstAliasFolds | internal/portable/coerce.go:126-144 | the first of cmd, action, op, mode, subcommand, operation that is given, undeclared and a non-empty string becomes a missing verb |
| ArgumentRepair.DeclaredKeysSettle | internal/portable/coerce.go:147-167 | a declared key ends with its own value, or else with that of the first undeclared key that stands for it, or not at all |
| ArgumentRepair.UndeclaredKeysGo | internal/portable/coerce.go:147-167 | every undeclared key goes |
| ArgumentRepair.RepairArguments | internal/portable/coerce.go:94-199 | folding, key repair and verb coercion in place give the specified object and warnings, or the refusal |
| ArgumentRepair.RepairsTheVerb | internal/portable/coerce.go:167-189 | the outcome is a refusal exactly when the repaired object's verb is unknown and its nearest in reach does harm; no other verb is touched but by its correction |
| ArgumentRepair.TiesAreLeftAlone | internal/portable/coerce.go:237-256 | a verb with two nearest known ones is left as it is |
| ArgumentRepair.WarningsAreTrue | internal/portable/coerce.go:143-165 | exactly the undeclared keys are warned of, and what is said of them, renamed or dropped, and the nearest name, is so |
| ArgumentRepair.FirstWarning | internal/portable/coerce.go:143-165 | one warning for a key that is not declared, none for one that is |
| ArgumentRepair.RenamedGoesThere | internal/portable/coerce.go:149-157 | a key said to be renamed has its value under the new name, which was free |
| ArgumentRepair.NewNamesAreReported | internal/portable/coerce.go:149-157 | and every name that was not given and is in the result is reported as a new one |
| ArgumentRepair.OutputKeysAreDeclared | internal/portable/coerce.go:94-199 | every key of a repaired object is declared |
| ArgumentRepair.SuppliedValuesAreKept | internal/portable/coerce.go:94-199 | no declared key but the verb loses the value it was given |
| ArgumentRepair.OutputValuesAreSupplied | internal/portable/coerce.go:91-93 | no value is invented but the nearest known verb, which is then not destructive |
| ArgumentRepair.DestructiveVerbsAreLiteral | internal/portable/coerce.go:23-26 | a destructive verb in the output was a string value in the input |
| ArgumentRepair.ValidCallsAreUnchanged | internal/portable/coerce.go:91-93 | a call is left alone exactly when it is no object, declares nothing, or has nothing to repair |
| ArgumentRepair.RepairIsIdempotent | internal/portable/coerce.go:94-199 | repairing a repaired call changes nothing |
| SnapshotCapture.FailsExactly | internal/snapshot/capture.go:148-221 | a bounded capture fails exactly when a path cannot be read or the files exceed the ceiling together |
| SnapshotCapture.FailsAt | internal/snapshot/capture.go:162-221 | it names the first path that cannot be read, or with which there are more bytes than the ceiling |
| SnapshotCapture.IdsAreHexadecimal | internal/snapshot/capture.go:477-488 | an identifier is one digit or more, all lower-case hexadecimal |
| SnapshotCapture.Vault.CaptureSurfaceBounded | internal/snapshot/capture.go:148-202 | the whole surface is recorded under the identifier with copies of its own, or nothing is left under it |
| SnapshotCapture.Vault.DeleteCapture | internal/snapshot/capture.go:223-236 | record and copies are gone, nothing else changes |
| SnapshotCapture.Vault.SealCapture | internal/snapshot/capture.go:263-283 | every entry of the record gets the state its path has now, and nothing else changes |
| SnapshotCapture.Vault.RestoreCapture | internal/snapshot/capture.go:339-404 | the restore goes through the entries in order, up to the first that fails |
| SnapshotCapture.Vault.RestoreOne | internal/snapshot/capture.go:345-402 | one entry: skipped, left, removed or rewritten, whatever is there cleared first |
| SnapshotCapture.OnlyThePathChanges | internal/snapshot/capture.go:379-385 | although writing follows links, an entry changes no path but its own |
| SnapshotCapture.OutsideIsUntouched | internal/snapshot/capture.go:339-404 | no path outside the surface changes, even when the restore stops half way |
| SnapshotCapture.Vault.ReadPreimage | internal/snapshot/capture.go:409-437 | the capture's own copy, or else the newest of the path's ring that has its checksum |
| SnapshotCapture.OwnCopyThenRing | internal/snapshot/capture.go:409-437 | which copy that is, and when there is none |
| SnapshotCapture.ModeComesBackWithContent | internal/snapshot/capture.go:374-400 | an entry that is not skipped leaves exactly the captured node if and only if what stood there had that content and that mode, or had to be rewritten, could be read, and the umask lets the mode through |
| SnapshotCapture.ActionsTell | internal/snapshot/capture.go:345-402 | each reported action by what stood at the path before and stands there after |
| SnapshotCapture.FirstEntryDecides | internal/snapshot/capture.go:339-404 | a path named several times ends as its first entry alone would have left it |
| SnapshotCapture.RestoreUndoes | internal/snapshot/capture.go:335-404 | after capture, any command, seal and any later writes, unchanged paths, or all with force, are back to kind and content, changed ones untouched |
| SnapshotCapture.RestoreUndoesExactly | internal/snapshot/capture.go:335-404 | and exactly when they are back mode and all |
| SnapshotCapture.CompletesUnlessStuck | internal/snapshot/capture.go:339-404 | a restore completes exactly when no path that must come back holds something that cannot be made into what it was |
| SnapshotCapture.UndoCommand | internal/snapshot/capture.go:141-404 | on the vault itself: capture, command, seal, later writes and restore undo every path of the surface and touch no other, and succeed exactly when the surface can be captured and no path is stuck |
| SnapshotCapture.ChangedModeStays | internal/snapshot/capture.go:374-377 | a command that only changes a mode is not undone, force or not |
| SnapshotCapture.UnreadableStays | internal/snapshot/capture.go:358-362 | something unreadable where nothing was is reported absent and stays |
| SnapshotCapture.UnreadableStops | internal/snapshot/capture.go:378-400 | something that cannot be overwritten where a file was stops the restore |
| SnapshotCapture.SkipsAreReported | internal/snapshot/capture.go:351-357 | with distinct paths, skipped is reported for exactly the paths changed since |
| SnapshotRing.Ring.Capture | internal/snapshot/vault.go:37-68 | the ring holds the last three preimages in order, renumbered, and no other file |
| SnapshotRing.Ring.LoadBySha | internal/snapshot/capture.go:422-437 | the newest of the last three preimages with a checksum, wherever later captures have moved it |
| SnapshotRing.Ring.Load | internal/snapshot/vault.go:81-106 | version k is the k-th newest preimage and mode, as long as it is one of the last three |
| Telemetry.EveryRunIsSound | internal/telemetry/store.go:223-258 | over every run, generations, versions and files agree: the newest file of a session is its newest publication, and every file a past total |
| Telemetry.CountersAreSums | internal/telemetry/store.go:141-203 | every counter is the sum of what its session recorded, event by event |
| Telemetry.VersionsCountChanges | internal/telemetry/store.go:141-203 | a step makes one version of a session exactly if it changes its totals |
| Telemetry.FailedWritesPublishNothing | internal/telemetry/store.go:241-243 | over any run in which all its writes fail, a session publishes nothing and gains no file |
| Telemetry.FilesStay | internal/telemetry/store.go:253-255 | over any run files go only by removals that succeed, and none is changed |
| Telemetry.SessionsStart | internal/telemetry/store.go:110-129 | a new session runs with nothing counted, and changes no file |
| Telemetry.ScanBest | internal/telemetry/store.go:412-466 | in whatever order files come, the scan keeps for every session its newest snapshot |
| Telemetry.Total | internal/telemetry/store.go:467-480 | adding up in any order gives the sum over the sessions |
| Telemetry.ScanFindsLastPublished | internal/telemetry/store.go:371-400 | at any moment of any run a load counts for every session exactly its newest published total |
| Telemetry.LoadedIsLowerBound | internal/telemetry/store.go:355-357 | loaded counters never exceed what was recorded |
| Telemetry.QuietFlushCapturesEverything | internal/telemetry/store.go:223-258 | a flush during which its session records nothing publishes all it recorded, whatever others do between |
| Telemetry.OneFileAtRest | internal/telemetry/store.go:253-255 | over every run in which removals succeed, a running session between flushes has exactly one file, its newest publication |
| Telemetry.SessionStore.CountCall | internal/telemetry/store.go:141-149 | a named tool's call counts one, each one version |
| Telemetry.SessionStore.CountCompaction | internal/telemetry/store.go:181-193 | both totals change in one step, a pass-through included |
| Telemetry.SessionStore.CountSaving | internal/telemetry/store.go:195-203 | only positive savings count, each one version |
| Telemetry.SessionStore.WriteSnapshot | internal/telemetry/store.go:267-298 | publication is one step that replaces no file, or none |
| Telemetry.SessionStore.Flush | internal/telemetry/store.go:223-256 | a flush is the four steps copy, publish, commit, remove |
| TelemetryPrune.ChooseVictims | internal/telemetry/store.go:326-347 | all expired sessions, and only above the cap as many of the oldest others as it takes; never its own |
| TelemetryPrune.YoungSessionsGoForTheCapOnly | internal/telemetry/store.go:327-347 | sessions of more than thirty days go; a younger one only for the cap, which then is met exactly, and no session kept is older than it |
| TelemetryPrune.Prune | internal/telemetry/store.go:302-353 | all files of the victims are removed and no other, at most fifty sessions stay, its own files untouched |
| TelemetryPrune.LoadAfterPrune | internal/telemetry/store.go:300-400 | after a prune a load counts exactly the surviving sessions, at most fifty and its own among them, each by its newest published total, and less than before by exactly those of the victims |
| TelemetryPrune.PruneMeetsTheCap | internal/telemetry/store.go:300-353 | at most fifty sessions are left, none expired but perhaps its own, whose files all stay |
| ReadLedger.StoppingEarlyIsExact | internal/readcache/ledger.go:134-143 | stopping at the first live entry from the back removes exactly the expired ones if and only if those come last, which the order of expiry guarantees |
| ReadLedger.Ledger.Expire | internal/readcache/ledger.go:134-143 | exactly the expired entries go, from the list and from the map |
| ReadLedger.Ledger.Touch | internal/readcache/ledger.go:65-77 | an entry becomes the most recent and the back makes room; map and list stay in step, sorted by expiry, within capacity |
| ReadLedger.Ledger.ShouldElide | internal/readcache/ledger.go:52-78 | true exactly for a live key without force; the list becomes that of the plain recency list |
| ReadLedger.Ledger.PriorDelivery | internal/readcache/ledger.go:80-93 | the delivery recorded for a live key, touching nothing |
| ReadLedger.Ledger.RecordDelivery | internal/readcache/ledger.go:101-122 | upserts and refreshes; nothing happens without an epoch or a size |
| ReadLedger.Ledger.Invalidate | internal/readcache/ledger.go:124-132 | exactly the entries of the path go, in whatever order the map is walked |
| ReadLedger.RecordedIsReported | internal/readcache/ledger.go:95-122 | within the time to live an observed key is found again and the delivery recorded for it is the one reported |
| ReadLedger.ObservedKeepsDelivery | internal/readcache/ledger.go:52-122 | a hit keeps the delivery recorded for its key, zero if none, and lives exactly one time to live more; so does a recorded delivery |
| ReadLedger.OthersKeepTheirEntries | internal/readcache/ledger.go:52-122 | every other key that is still there keeps its delivery and expiry |
| ReadLedger.RecordElideCredit | internal/readcache/ledger.go:52-122 | on the ledger itself: record a delivery, elide, and credit exactly the recorded size |
| ReadLedger.InvalidatedIsForgotten | internal/readcache/ledger.go:124-132 | no key of the path is found, every other is as before |
| ReadLedger.OnlyTheOldestIsEvicted | internal/readcache/ledger.go:72-76 | touching a key costs at most the oldest other entry, and only in a full ledger |
| TerminalText.TerminalNormalize | internal/logs/compact.go:43-110 | one cursor and one buffer compute what the terminal shows |
| TerminalText.NormalizedSplits | internal/logs/compact.go:43-110 | for all x and y, x, a line feed and y show as x with its line feed, then y alone |
| TerminalText.NormalizedKeepsLines | internal/logs/compact.go:43-110 | every line feed is kept, no carriage return is, and nothing grows |
| TerminalText.LinesAreAddressed | internal/logs/compact.go:43-110 | line i of what is shown is what is shown of line i |
| TerminalText.RawLinesAreAddressed | internal/logs/segment.go:34-46 | the lines that are grouped are, position for position, what is shown of the raw lines |
| TerminalText.RawLinesMakeTheText | internal/logs/segment.go:34-46 | the raw lines make up the text, its last line feed aside, and only the empty text has none |
| TerminalText.CsiIsTheGrammar | internal/logs/compact.go:49-66 | exactly parameter bytes, intermediate bytes and a final byte are deleted as a control sequence |
| TerminalText.OscIsTheFirstTerminator | internal/logs/compact.go:67-94 | an operating system command is deleted up to its first terminator, and not at all if the line ends first |
| TerminalText.SequencesAreFound | internal/logs/compact.go:49-94 | exactly these sequences are found, after ESC [ and ESC ] |
| TerminalText.SequencesVanish | internal/logs/compact.go:43-110 | behind text without escapes that does not end in a carriage return a sequence is as if it were not there |
| TerminalText.LastFrameWins | internal/logs/compact.go:95-102 | without escapes, a bare carriage return leaves only what comes after it |
| TerminalText.PlainTextIsKept | internal/logs/compact.go:103-109 | text without escapes and carriage returns is shown as it is |
| LineRanges.SelectRanges | internal/bash/spill.go:152-177 | the lines of the parts in order, ranges cut at the end, or an error at the first bad part |
| LineRanges.NumeralsAreRead | internal/bash/spill.go:152-177 | a numeral is an optional sign and digits, within 64 bits |
| LineRanges.RangesAreRead | internal/bash/spill.go:152-177 | a part is read exactly when it is, white space aside, a number from one up, or two of them in order around the first dash |
| LineRanges.ListsAreRead | internal/bash/spill.go:152-177 | a list is read exactly when all its parts are such, and gives their lines one part after the other |
| LineRanges.PrintedRunsSelect | internal/bash/spill.go:152-177 | a printed list of runs selects exactly the lines it names |
| LineSets.SortIntsSorts | internal/logs/collapse.go:139-140 | sorting orders the numbers and keeps them |
| LineSets.CollectRuns | internal/logs/collapse.go:142-150 | the loop that extends the last run computes the runs |
| LineSets.RunsExpand | internal/logs/collapse.go:142-150 | the runs name exactly the numbers, each once and in order |
| LineSets.RunsAreApart | internal/logs/collapse.go:142-150 | of ascending numbers no two runs could have been one |
| LineSets.ListedPlusOverflow | internal/logs/collapse.go:152-158 | the listed numbers and the overflow make up the whole set, at most eight runs listed |
| LineSets.RenderLineSet | internal/logs/collapse.go:138-180 | the builder's text is the span of the runs and the overflow |
| LineSets.SpanSaysSo | internal/logs/collapse.go:160-178 | a span is `[L`, the listed runs, a plus and the number of lines not listed if there are any, and `]` |
| LineSets.SpanSelectsItsLines | internal/logs/collapse.go:128-137 | the run list of a span, given back as a line range, selects exactly the lines of its group, but for the overflow |
| LogTemplates.RefillsBody | internal/logs/collapse.go:65-71 | a template filled with its own slots is the line again if and only if no slot mark stands outside the line's tokens, as none does in a line without the mark |
| LogTemplates.StrayMarkShows | internal/logs/collapse.go:222-234 | a line that is a slot mark and no token is shown as a hole |
| LogTemplates.BucketKeyIsInjective | internal/logs/collapse.go:115-115 | different templates or numbers of slots never share a bucket |
| LogTemplates.GroupTemplates | internal/logs/collapse.go:106-126 | the groups cover exactly the lines that are not blank, each row the capture of its line, groups distinct and in order of first occurrence |
| LogTemplates.LinesStandOnce | internal/logs/collapse.go:106-126 | a line stands in one group only, and there once |
| LogTemplates.RowsAreRecoverable | internal/logs/collapse.go:12-14 | every row leads by its number to one raw line of the spill, read back exactly, and refills to what is shown of it exactly when no slot mark is stray |
| LogTemplates.CollectLabels | internal/logs/collapse.go:197-220 | slots that never vary are folded back, the others numbered in order |
| LogTemplates.RenderHead | internal/logs/collapse.go:222-234 | the head is the template with those labels in its gaps |
| LogTemplates.SingletonsAreVerbatim | internal/logs/collapse.go:188-190 | the head of a group of one is its line verbatim, exactly when no slot mark is stray |
| LogRows.ClampLines | internal/logs/compact.go:159-170 | the loop clamps every line in place and tells whether one was too long |
| LogRows.ClampIsHonest | internal/logs/compact.go:156-170 | a valid line that is too long keeps its first characters, exactly as many as allowed, and the marker counts the rest |
| LogRows.InvalidByteIsReplaced | internal/logs/compact.go:163-165 | a byte that starts no character counts as one, and is shown as the replacement character |
| LogRows.ClampKeepsLines | internal/logs/compact.go:159-170 | clamped text has the same lines, each clamped |
| LogRows.RenderTemplateGroup | internal/logs/collapse.go:191-255 | a head row with span, head and count, and a row for every slot that varies |
| LogRows.HeadRowSays | internal/logs/collapse.go:234-239 | the head row is indent, span padded to thirteen, head without white space around it, and the count of two rows or more |
| LogRows.SlotRowsNameTheirHoles | internal/logs/collapse.go:197-253 | a constant slot is labelled by its value, a varying one by its ordinal, under which its own row describes its distinct values |
| LogRows.RowsAreHeadAndSlots | internal/logs/collapse.go:240-254 | behind the head row there is one row for every varying slot |
| LogRows.DistinctAreTheValues | internal/logs/collapse.go:243-249 | the values listed for a slot are those of its rows, each once |
| LogRows.DistinctInOrder | internal/logs/collapse.go:243-250 | they come in the order of the rows that have them first |
| LogRows.SingletonRow | internal/logs/collapse.go:188-190 | a group of one is a single row that ends in its line, without a count |
| Utf8.HeadIsSafe | internal/logs/compact.go:114-126 | a head within its limit that splits no sequence of valid text |
| Utf8.TailIsSafe | internal/logs/compact.go:130-142 | the same for the tail |
| Utf8Laws.ValidIsEncoding | internal/logs/compact.go:112-142 | valid are exactly the encodings of sequences of Unicode scalar values, by the table in section 3 of RFC 3629 |
| Utf8Laws.TrimsAllSpace | internal/logs/collapse.go:236-236 | trimming takes encoded Unicode white space off both ends, and all of it |
| BudgetCap.Cap | internal/logs/compact.go:195-284 | the two counting loops and the branches compute the specified view and count |
| BudgetCap.SomethingIsDropped | internal/logs/compact.go:241-246 | over-long text reaches the branch without a cut in exactly one case |
| BudgetCap.BudgetIsKept | internal/logs/compact.go:186-188 | the view fits every budget with room for two markers |
| BudgetCap.KeptAndDropped | internal/logs/compact.go:184-194 | nothing is cut exactly when the text is within the budget or empty; otherwise the lines of the view are the most first lines that fit half the budget, a marker with the number of lines missing, and the most last lines that then fit; or, exactly when neither the first nor the last line fits, the two ends of the first line around the marker that names this loss |
| BudgetCap.CutLosesUnlessMet | internal/logs/compact.go:176-183 | a cut that claims a lost middle has lost nothing if and only if both parts reach one boundary of the line, and repeats a part if and only if they reach two, for every string of bytes |
| BudgetCap.CutLosesUnlessRoomy | internal/logs/compact.go:248-272 | for ASCII the first are the lines no longer than the room, the second those shorter and not empty; no longer line, and no single line over the budget, is cut without a loss |
| BudgetCap.ShortLineIsRepeated | internal/logs/compact.go:264-272 | before a line of 200 bytes and with a budget of 200, a line of 154 bytes is shown whole and one of 101 in part twice, both labelled as cut |
| BudgetCap.LastLineSurvives | internal/logs/compact.go:187-189 | a last line that fits beside half the budget and a marker is kept |
| BudgetCap.ViewIsValid | internal/logs/compact.go:112-142 | valid UTF-8 stays valid under every budget |
| SpillStore.Store.Put | internal/bash/spill.go:51-100 | a stored spill reads back exactly until it expires, others are unaffected, and it fails only when too large or the store is full |
| SpillStore.Store.Read | internal/bash/spill.go:102-133 | the exact bytes, or the selected lines, of a record that has not expired |
| SpillStore.NeverOverfull | internal/bash/spill.go:83-94 | however callers interleave, the store never exceeds its maximum |
| SpillStore.PublishedStaysReadable | internal/bash/spill.go:51-133 | whatever others do, what was published reads back as it was until it expires |
| LogDelivery.Analyze | internal/logs/analyze.go:121-159 | the view is the output, the bounded text, or the clamped and bounded rows of all groups of its lines, if that is strictly shorter |
| LogDelivery.DefaultLimits | internal/logs/analyze.go:48-69 | the limits in force where none are given |
| LogDelivery.ShortOutputIsExact | internal/logs/analyze.go:121-159 | output short in lines and bytes is delivered as it is; longer output without an outline is the bounded text |
| LogDelivery.EveryGroupIsShown | internal/logs/analyze.go:108-120 | an outline is line for line the clamped rows of a grouping of the lines, every group, of one line or more, with a row of its own; or what the budget leaves of them, with the number of rows missing |
| LogDelivery.Compact | internal/logs/deliver.go:57-83 | the view is that of the analysis, and when it is not exactly the output carries an identifier that reads back exactly the output; the output itself is delivered in its place only if switched off, or if the store refused what the analysis would have elided |
| ShellWords.TokenizeCommand | internal/bash/guard.go:67-121 | the loop with its six flags is the tokenizer |
| ShellGrammar.TokenizesCommands | internal/bash/guard.go:63-121 | a text is tokenized exactly when it is blank-separated words of plain, escaped, single- and double-quoted stretches, no operator among the plain ones, and then into what those words stand for, quoted and open to expansion as they are written |
| ShellWords.QuotedWordsAreRead | internal/bash/guard.go:556-558 | any words, quoted and joined, tokenize to exactly those words, all quoted and none open to expansion |
| CommandPlan.NonFlagPositions | internal/bash/guard.go:132-145 | the planner's loop lists the positions of the operands |
| CommandShapes.PlansByName | internal/bash/guard.go:125-231 | which commands are planned, with which effect, and which of their words by position are the operands: free words and all after "--", for sed those after the script |
| CommandPlan.SedPositions | internal/bash/guard.go:158-196 | the loop with its flags finds the operands of sed and whether it edits in place, or a script missing |
| CommandPlan.PlanWords | internal/bash/guard.go:125-231 | the planner's loops and branches give the effect and the positions of the operands, or no plan |
| PinnedPlan.ShapeOfPinned | internal/bash/guard.go:125-231 | with absolute paths for its operands a command has the same effect and the paths as operands |
| PinnedPlan.PinnedOperands | internal/bash/guard.go:533-554 | the operands of the pinned words are the captured paths, in order |
| Pinning.PinnedCommandPlansTheSame | internal/bash/guard.go:511-558 | the pinned text, tokenized and planned again, is the same command and effect on exactly the captured paths |
| Pinning.PinCommand | internal/bash/guard.go:533-554 | the text is the quoted words with every operand replaced by its paths; nothing on Windows |
| BatchRead.FindBoundary | internal/filetool/read.go:633-644 | the loop finds the last boundary within the limit |
| BatchRead.ReadItems | internal/filetool/read.go:93-162 | the paging loop fills the specified page, or reports a bad cursor |
| BatchRead.CursorsAreChecked | internal/filetool/read.go:95-136 | which cursors are refused, and with which of the two errors |
| BatchRead.PageIsGood | internal/filetool/read.go:93-162 | a page of valid sections is within the budget, valid, the next part of what is to come, and its cursor is later |
| BatchRead.PageIsFull | internal/filetool/read.go:138-154 | a page with a cursor has no room for the part up to the next boundary |
| BatchRead.MovesOnUnless | internal/filetool/read.go:137-152 | a page fails to move on exactly in a whole budget of continuation bytes |
| BatchRead.ContinuationsStall | internal/filetool/read.go:137-152 | a section of more than a budget of continuation bytes gives an empty page and the same cursor |
| BatchRead.PagesAreTheSections | internal/filetool/read.go:93-162 | following the cursors from the start ends, and the pages are exactly the sections in order |
| TaskProtocol.EveryRunIsSound | internal/bash/task.go:34-126 | over all interleavings the table never exceeds its maximum and holds every unfinished task |
| TaskProtocol.OnlyTerminalTasksLeave | internal/bash/task.go:82-126 | a task leaves the table only in a terminal status |
| TaskProtocol.EndedTasksStayAnHour | internal/bash/task.go:56-126 | a task that ended is in the table up to an hour later, and after that is reaped by whoever looks |
| TaskProtocol.UnfinishedTasksStay | internal/bash/task.go:82-126 | no step removes a task that has not ended |
| TaskProtocol.TerminalIsFinal | internal/bash/task.go:52-68 | a terminal status never changes |
| TaskProtocol.ResultsAreHandedOutOnce | internal/bash/task.go:82-101 | a result is handed out at most once |
| TaskProtocol.CollectingHandsOut | internal/bash/task.go:82-101 | in every sound state, collecting hands out the result of a task that is done and not expired, once, and leaves exactly the unfinished tasks in the table |
| TaskProtocol.StartsUnlessFull | internal/bash/task.go:34-51 | in every sound state a new task is queued exactly when fewer than 64 cannot be reaped |
| TaskProtocol.DoneExactly | internal/bash/task.go:52-68 | a task is done exactly when its run succeeded and no cancellation took effect before that |
| TaskProtocol.AfterCancelling | internal/bash/task.go:52-68 | in every reachable state, cancelling becomes running exactly by the first step of a goroutine that had not begun, cancelled exactly by the end of its run, and nothing else |
| TaskProtocol.CancellingAnExecutingTaskIsFinal | internal/bash/task.go:52-117 | over every run, a task executing when a cancellation took effect never shows as running again; a cancelled task shows as running exactly while it executes and every cancellation came before it did |
| TaskProtocol.CancellingIsNotFinal | internal/bash/task.go:52-55 | the run that shows it: started, cancelled, begun |
| TaskProtocol.TaskManager.StartTask | internal/bash/task.go:34-51 | starting is one step, refused exactly when the table is full after reaping |
| TaskProtocol.TaskManager.BeginGoroutine | internal/bash/task.go:52-55 | the goroutine's first step shows the task as running |
| TaskProtocol.TaskManager.FinishGoroutine | internal/bash/task.go:56-68 | its last step gives the terminal status: cancelled, failed or done |
| TaskProtocol.TaskManager.StatusOf | internal/bash/task.go:72-81 | looking at a task is one step that only reaps |
| TaskProtocol.TaskManager.CollectTask | internal/bash/task.go:82-101 | collecting is one step; a result comes with status done only, and removes the task |
| TaskProtocol.TaskManager.CancelTask | internal/bash/task.go:103-117 | cancelling is one step that takes effect only on queued or running tasks |
| TaskProtocol.TaskManager.Reap | internal/bash/task.go:119-126 | exactly the expired tasks in a terminal status leave the table |

## Left out

- PatchLaw.DiffThenPatch: the two file names must not contain a line that reads as a hunk header, and the lines of the two texts together can be counted in an `int`; every name without a line feed qualifies.
- Patch.FindPosition: a fuzz that is the largest `int` itself, whose counter the source would wrap after trying all others, is taken to end there.
- Patch.SearchIsNearest: no position tried is below the smallest `int`, which takes a fuzz near the largest one and hunks that shrank the text; all lines fit in memory.
- Patch errors carry no wording; `UnifiedDiff` fuses the loop that collects changes with the one that merges them.
- Terse errors carry no positions or wording; Go maps and slices are values here, so aliasing between decoded values is not modelled.
- TersePrinter.Format: the size in tokens is a parameter, so which documents are worth rendering is not stated.
- EditBatch: dry runs and the plain preview diff of `internal/file` are presentation; sed, write, rename and restore verbs are not modelled.
- EditBatch.SupplyOrderIsIrrelevant: which of several errors is reported depends on the order, so only failing is promised.
- ArgumentRepair: JSON decoding and encoding around the repair, and the wording of warnings, are not modelled; the order of candidates is the sorted one of the source.
- SnapshotCapture: two names for one file (a linked directory on the way to a path) and directories on the way are not modelled; rings are given, and hold what their checksums say; a new file is readable whatever its mode and the umask; the unbounded capture, which also writes the rings and cleans nothing up, is left out.
- SnapshotRing.Ring.Capture: the file name made of clock and checksum is taken to be new.
- TelemetryPrune: a newest file whose time cannot be told counts as infinitely old; the source keeps the time of an older generation of the session if it was listed before and could be told.
- Telemetry: publication is one atomic step; the protocol is a state machine over values, with one class for the session's own fields; foreign or damaged files in the directory, their warnings, and the second scan that answers a file vanishing mid-scan are not modelled; counters are unbounded.
- ReadLedger: calls are given a clock that never goes back; the source reads the clock before it takes its lock, so two concurrent calls may disagree with that by the time between.  The list holds keys instead of pointers.
- LogTemplates: the regular expressions are functions that take a token off the front of a text.
- LogRows.RenderTemplateGroup: the wording for the values of a varying slot (`describeSlot`) is a parameter.
- LogDelivery: a negative clamp width is not modelled; the environment switch is a flag.
- LogDelivery.EveryGroupIsShown: the parameters are taken to put no line feed into a line, as the regular expressions cannot.
- SpillStore: compression, the identity check of the file and the removal of the directory are not modelled.
- Pinning: glob expansion, path hazards, the admission matrix and the confirmation digest are not modelled; the model starts from the captured paths.
- BatchRead: rendering of sections, deduplication and the encoding of cursors are not modelled.
- TaskProtocol: the result and the error text of a run are not modelled, only whether it succeeded; the context is a flag.
- The JSON-RPC loop, the vault page, authentication, symbol extraction, remote execution and service discovery are not modelled.
