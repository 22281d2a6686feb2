# mandark: the edit pipeline, modelled in Dafny

mandark is a command-line tool that sends a numbered listing of source files to a
language model and streams back line edits: additions at a line and replacements of a
line range. src/verify-edits.ts defines a filter in which a second, cheaper model
verifies each edit, but no other file calls it; the model covers it as a separate part.
The operator confirms each edit. The confirmed edits are then applied to the files bottom to top and written back.
src/edit-history.ts also defines a history that records edits and reverts them, but no
other file calls it; the model covers it as a separate part. This project models that
pipeline and proves its properties:

- reading files into the numbered listing (`process_files.dfy`);
- the edit schemas (`edits.dfy`, over the JSON values of `json.dfy`);
- the streaming adapters for the Anthropic, OpenAI and Fireworks APIs, with the chunk
  loop they share (`stream.dfy`, `adapters.dfy`, `fireworks.dfy`);
- the continuation and de-duplication of `getAIEdits` (`call_ai.dfy`);
- the edit verifier, which the pipeline does not call (`verify.dfy`, with the model
  table in `models.dfy`);
- the patch engine and its two classes (`patch.dfy`, `sort.dfy`, `diff.dfy`,
  `engine.dfy`), and the single-edit path (`apply_edit.dfy`);
- the edit history and revert, which the pipeline does not call (`history.dfy`);
- the GitHub helpers and the repository analyser (`github.dfy`, `repo_analyzer.dfy`);
- API-key handling (`api_keys.dfy`) and the start of `main` (`app.dfy`).

The model takes the source's own form:

- `FileManager` and `EditProcessor` are classes whose methods update their fields.
- The same goes for the analyser's `sourceDirs` list and for `process.env`.
- Loops become methods with invariants, proved against recursive specification
  functions.
- Schemas, sorting, splicing and scoring are functions.

Everything outside the process is a parameter:

- The file system is a map (`Disk`, or `Files` for the history, with the paths that
  exist but cannot be read given as a set).
- Directory trees are `Entry` values.
- `JSON.parse` is a function `string -> Option<Json>`.
- The model's reply is a sequence of chunk steps, each carrying the candidate objects
  the incremental parser completed after that chunk.
- The operator's answers and the typed API key are inputs.

Modelling notes where the code and its description differ:

- The edit's change descriptor is read from the field `change`, as the schemas in
  src/types.ts declare it. src/edit-processor.ts reads `edit.type.type` instead, and the
  objects it gets from the adapters have no `type` key, so the first edit throws (see
  "## Findings"). The model's edit processor reads `change`. src/apply-edits.ts also
  reads `edit.type.type`, but it gets objects of the older schema of src/call-ai.ts,
  which do have `type`.
- `loadFile` gives an existing file that cannot be read no buffer at all. The apply loop
  then splices that file against an empty buffer. `saveAllFiles` then throws when it
  writes that buffer, and the buffers not yet written are lost. The model follows the
  code (`EditEngine.LoadRules`, `EditEngine.EditToUnwritableFileFailsSave`). A path that
  cannot be read is taken to be one that cannot be written either: a directory, or a
  file without permission. The converse is not modelled: a file that can be read is
  taken to be writable, and a missing path creatable (see "## Left out").
- Filenames are taken to be resolved paths. `FileManager` resolves each name against
  the working directory, so "a.ts" and "./a.ts" share one buffer in the program; the
  model keys its buffers by the name as given.
- Line numbers 0 and below are accepted by every schema. `slice` reads negative indices
  from the end, and the model keeps that (`Patch.AdditionAtZeroLandsBeforeLastLine`).
- `path.join` normalisation is modelled for the forms the code can produce: a trailing
  `/`, `.`, `..` and an empty name. The temporary directory and the repository root are
  taken to be normalised paths.
- `Array.prototype.sort` is a library call. It is modelled as a stable sort function
  (`StableSort.SortDesc`) that returns a new sequence, where JavaScript sorts in place.

## Model

| member | source | states |
|---|---|---|
| Json.Field | src/types.ts:15-21 | a key is read only from an object that holds it; anything else is absent |
| Strings.Split | src/process-files.ts:46-47 | `split` gives one piece more than there are separators, and no piece holds a separator |
| Strings.JoinSplit | src/process-files.ts:46-49 | joining the pieces of a split gives the text back |
| Strings.SplitJoin | src/edit-processor.ts:11-46 | splitting a join of separator-free pieces gives the pieces back |
| Strings.IndexOfFrom | src/github-utils.ts:17 | the index found is the first occurrence at or after the start; `None` means there is none |
| Strings.BeforeFirst | src/verify-edits.ts:78-81 | `split(sep)[0]` is the prefix before the first occurrence, or the whole text when there is none |
| Strings.ReplaceFirst | src/github-utils.ts:17 | `replace` with a string pattern replaces the first occurrence only, and leaves a text without one unchanged |
| Strings.NatToString | src/process-files.ts:48 | `${n}` is a non-empty string of decimal digits |
| Strings.DigitsValueOfNatToString | src/process-files.ts:48 | reading the rendered number back gives the number |
| Strings.LeadingDigits | src/process-files.ts:53 | `\d+` at the start takes the longest run of digits |
| Edits.StringField | src/types.ts:15-21 | a string field is present exactly when the key holds a JSON string |
| Edits.NumberField | src/types.ts:3-13 | a number field is read exactly when a JSON number is under that key |
| Edits.ParseEditChange | src/types.ts:3-13 | `EditTypeSchema` accepts exactly the objects tagged "addition" with a numeric `atLine`, or "replacement" with numeric `fromLineNumber` and `toLineNumber`, and reads those numbers |
| Edits.ParseCorrectedChange | src/types.ts:99-112 | the correction schema accepts exactly the objects tagged "skip" and those `EditTypeSchema` accepts; a "skip" tag always reads as a skip |
| Edits.ParseLegacyChange | src/call-ai.ts:15-29 | the older schema accepts exactly the line edits and the objects tagged "npm_install" with a string `packageName`, which it reads; never "skip" |
| Edits.ExtraKeysIgnored | src/types.ts:3-13 | keys a change schema does not declare change nothing: every change schema reads an object with extra keys as it reads the object without them |
| Edits.SkipWithReason | src/types.ts:84-112 | a skip carrying the `reason` the verifier's prompt asks for is a skip |
| Edits.SchemaOutput | src/types.ts:15-21 | the object `EditSchema` returns holds the declared keys of the input and no other |
| Edits.ReadTypeType | src/edit-processor.ts:99 | `edit.type.type` throws exactly when `edit.type` is undefined or null, and otherwise reads the inner `type` |
| Edits.ProcessorReadThrows | src/edit-processor.ts:99 | every object the adapters yield lacks `type`, so `edit.type.type` throws on it |
| Edits.ChangeReadBack | src/types.ts:15-21 | the `change` of the schema's output reads back as the parsed edit's change |
| Edits.ParseEdit | src/types.ts:15-21 | `EditSchema` accepts an object exactly when `explain`, `filename` and `code` are strings, `change` is a valid line change and `newPackages` is absent or a list of strings; the edit carries those strings, that change and those packages |
| Edits.ParseLegacyEdit | src/call-ai.ts:31-36 | the older `EditSchema` accepts an object exactly when `explain`, `filename` and `code` are strings and `type` is a valid change; the edit carries those strings and that change, and no packages |
| Edits.ChangeRoundTrip | src/types.ts:3-13 | every line change, whatever its numbers, is accepted by all three change schemas and read back unchanged |
| Edits.SkipOnlyCorrects | src/types.ts:99-112 | a skip is accepted by the correction schema and by no edit schema |
| Edits.CorrectedExtendsEditChange | src/types.ts:99-112 | the correction schema agrees with the edit schema on everything the edit schema accepts, and adds only "skip" |
| Edits.EditRoundTrip | src/types.ts:15-21 | every edit with a line change is accepted by `EditSchema` and read back unchanged |
| Models.FirstVerifierOf | src/verify-edits.ts:43-46 | `find` of a verifier model of the provider: the first qualifying index, or none qualifies |
| Models.SelectVerifier | src/verify-edits.ts:43-46 | the verifier is the first of the preferred provider, else the first of any provider, and none exists only when the table has no verifier |
| Models.TableVerifiers | src/models.ts:1-63 | the table gives haiku to Anthropic and Fireworks and gpt-4o-mini to OpenAI |
| Models.ByNickName | src/app.ts:33 | `find` by nickname returns a model of the list with that nickname, and none only when no model has it |
| Models.ByNickNameFirst | src/app.ts:33 | the model `find` returns is the first with that nickname: every model before it has another one |
| Models.TableNickNames | src/models.ts:1-63 | every nickname of the table selects the model that carries it |
| ProcessFiles.Numbered | src/process-files.ts:48 | line `i` becomes `L{i+1}: line`, one numbered line per line |
| ProcessFiles.Unnumber | src/process-files.ts:48 | reading a numbered line back yields a strictly shorter content |
| ProcessFiles.UnnumberNumbered | src/process-files.ts:48 | a numbered line reads back as its 1-based number and its content |
| ProcessFiles.NoNewlineInNumberedLine | src/process-files.ts:46-49 | numbering a piece of a split adds no line break |
| ProcessFiles.NumberedBodyLines | src/process-files.ts:46-49 | the numbered body has one line per content line, `\n`-count plus one, each numbered in order |
| ProcessFiles.NumberingRoundTrip | src/process-files.ts:46-49 | taking the `L{n}: ` prefixes off gives the content back, and line `k` carries the number `k + 1` |
| ProcessFiles.LeadingSpaces | src/process-files.ts:53 | `\s*` takes the longest run of white space |
| ProcessFiles.FirstTerminator | src/process-files.ts:53 | `.*?` stops at the first line terminator |
| ProcessFiles.BraceOnLine | src/process-files.ts:54 | the `{` the second pattern needs is on the same line |
| ProcessFiles.ImportPrefixEnd | src/process-files.ts:53-54 | where `L\d+:\s*import` matches at the start of the text, it ends inside the text, past the shortest such prefix `L1:import` |
| ProcessFiles.ImportPrefixEndReadsImport | src/process-files.ts:53-54 | a matched prefix starts with `L` and its last six characters are `import` |
| ProcessFiles.MatchLen | src/process-files.ts:52-54 | every match of either import pattern is non-empty and ends with `\n` |
| ProcessFiles.NoNewlineNothingStripped | src/process-files.ts:52-54 | text with no line break, such as the last line of a body, is never stripped |
| ProcessFiles.ImportLineMatches | src/process-files.ts:53 | the first pattern matches a numbered import line through its `\n` |
| ProcessFiles.ImportLineRemoved | src/process-files.ts:51-55 | a numbered import line followed by `\n` is removed whole |
| ProcessFiles.NumberedFileBlock | src/process-files.ts:57-60 | with imports kept, the block is the numbered body wrapped in tags naming the relative path, and the body reads back as the content |
| ProcessFiles.ListingAppend | src/process-files.ts:29-33 | the listing of two runs of files is the first listing followed by the second |
| ProcessFiles.CollectAppend | src/process-files.ts:14-27 | inputs contribute their files in input order |
| ProcessFiles.ProcessFiles | src/process-files.ts:5-39 | the code is the blocks of the collected files joined in order, and the count is the number of files; a failing `stat` or read is the error thrown |
| ProcessFiles.CollectStopsAtFailure | src/process-files.ts:15 | once an input's `stat` fails, processing fails with that input's error |
| StableSort.SortIsDescending | src/edit-processor.ts:185-192 | the sort puts the largest key first |
| StableSort.SortIsPermutation | src/edit-processor.ts:185-192 | the sort is a permutation of its input |
| StableSort.SortIsStable | src/edit-processor.ts:185-192 | among equal keys the input order is kept |
| StableSort.SortKeepsSum | src/edit-processor.ts:172-183 | sorting does not change a sum over the elements |
| StableSort.SortChains | src/edit-processor.ts:185-192 | pairs that fit in whichever order the sort puts them give a sorted sequence in which every pair fits |
| Patch.RelIndex | src/edit-processor.ts:156-160 | `slice` counts a negative index from the end and clamps to the length |
| Patch.NewLines | src/edit-processor.ts:156-160 | the inserted lines are the code's `\n`-pieces |
| Patch.SpliceInRange | src/edit-processor.ts:156-160 | an in-range splice keeps the lines before and after the range and swaps the range for the new lines |
| Patch.SplicePrefixUnchanged | src/edit-processor.ts:156-160 | a splice from index `s` leaves lines `[0, s)` untouched |
| Patch.AdditionInserts | src/types.ts:3-7 | an addition at `atLine` inserts the new lines before old line `atLine` |
| Patch.ReplacementReplaces | src/types.ts:8-12 | a replacement swaps exactly lines `from..to` |
| Patch.AdditionAtZeroLandsBeforeLastLine | src/edit-processor.ts:156-160 | an addition at line 0 lands before the last line, since `slice(0, -1)` counts from the end |
| Patch.SortEditsSpec | src/edit-processor.ts:185-192 | `sortEdits` orders by start line descending, is a permutation, and is stable |
| Patch.ApplyAllOnPrefix | src/edit-processor.ts:136-167 | bottom-to-top edits within a prefix leave the rest of the buffer untouched |
| Patch.BottomToTopMatchesOriginalNumbering | src/edit-processor.ts:136-167 | applying bottom-to-top edits one after another gives the file every edit would give against the original numbering |
| Patch.PendingEditSeesOriginalLines | src/edit-processor.ts:136-167 | when an edit's turn comes, the lines it addresses are still the original ones |
| Patch.TotalLinesChanged | src/edit-processor.ts:172-183 | the total is never negative |
| Patch.TotalIsSum | src/edit-processor.ts:172-183 | the reduce is the sum of the per-edit counts |
| Patch.LinesChangedIsLengthChange | src/edit-processor.ts:172-183 | an in-range edit's count is the change in the buffer's length |
| Patch.TotalIgnoresOrder | src/edit-processor.ts:133-134 | the total is the same before and after sorting |
| Diff.AddedLines | src/edit-processor.ts:215-217 | every new line is printed once, in order |
| Diff.Run | src/edit-processor.ts:203-225 | a run prints exactly the lines of its range with one tag |
| Diff.RenderIsWindow | src/edit-processor.ts:195-226 | the preview is at most three context lines, the removed lines, the added lines and at most three context lines |
| Diff.PrintColoredDiff | src/apply-edits.ts:7-34 | the three loops print exactly the window around the range, for in-range indices |
| Diff.PrintFirstLoop | src/apply-edits.ts:15-25 | the first loop prints the first pass over the padded window, line by line |
| Diff.FirstPassIsRuns | src/apply-edits.ts:15-25 | the first pass is up to three context lines before the range, then the range's lines as removed |
| Diff.PrintAddedLines | src/apply-edits.ts:27-29 | the second loop prints every new line as added, in order |
| Diff.PrintTrailingLoop | src/apply-edits.ts:31-33 | the third loop prints the lines from the end of the range to the end of the window |
| Diff.TrailingIsRun | src/apply-edits.ts:31-33 | the trailing lines are one run of context lines |
| EditEngine.Saved | src/edit-processor.ts:37-46 | a save that completes writes every buffer and keeps every other file |
| EditEngine.LoadRules | src/edit-processor.ts:11-30 | a held buffer is never reloaded; a missing file reads as empty; an unreadable file gets no buffer; a readable one reads as its lines |
| EditEngine.LoadSaveRoundTrip | src/edit-processor.ts:11-46 | a readable file loaded and saved without edits is written back byte for byte |
| EditEngine.ForFile | src/edit-processor.ts:136-167 | one file's share of the queue holds only that file's edits, all from the queue |
| EditEngine.FilesAreIndependent | src/edit-processor.ts:136-167 | a file's final buffer is its loaded buffer with its own edits applied in order |
| EditEngine.DisjointFitsAfterSort | src/edit-processor.ts:185-192 | disjoint edits end up in an order where each fits below the ones before it |
| EditEngine.ForFileIsBottomToTop | src/edit-processor.ts:136-167 | a chained queue gives every file a bottom-to-top share |
| EditEngine.ChainedQueueAddressesOriginalLines | src/edit-processor.ts:136-167 | a chained queue leaves each file as if every edit had addressed its original line numbers |
| EditEngine.EditsAddressOriginalLines | src/edit-processor.ts:132-171 | after `sortEdits`, disjoint in-range edits leave each file as if every edit had addressed its original line numbers |
| EditEngine.SameLineAdditionIsOverwritten | src/edit-processor.ts:185-192 | an addition then a replacement at the same line: the sort keeps arrival order and the replacement overwrites the inserted line |
| EditEngine.ApartFitsAfterFixedSort | src/edit-processor.ts:185-192 | with the corrected tie-break, non-overlapping edits fit in either arrival order |
| EditEngine.FixedSortAddressesOriginalLines | src/edit-processor.ts:185-192 | with the corrected sort, non-overlapping edits address the original lines whatever their arrival order |
| EditEngine.FileManager.constructor | src/edit-processor.ts:8-9 | a new manager holds no buffers |
| EditEngine.FileManager.LoadFile | src/edit-processor.ts:11-25 | the buffers become what `Loaded` describes |
| EditEngine.FileManager.GetFileContent | src/edit-processor.ts:27-30 | the buffer of the path, or an empty one |
| EditEngine.FileManager.UpdateFile | src/edit-processor.ts:32-35 | only the path's buffer changes, to the new content |
| EditEngine.FileManager.SaveAllFiles | src/edit-processor.ts:37-46 | the save throws exactly when a buffered path is unreadable, and then every entry is the old one or a written buffer; otherwise the disk is `Saved` of the buffers |
| EditEngine.ApplyToFilesBuffers | src/edit-processor.ts:136-167 | the apply loop keeps every buffer and leaves one for each edited file |
| EditEngine.EditToUnwritableFileFailsSave | src/edit-processor.ts:11-46 | a confirmed edit to an existing file that cannot be read makes the save throw |
| EditEngine.ConfirmedUpTo | src/edit-processor.ts:57-90 | only line edits are ever queued |
| EditEngine.LoadedUpToFacts | src/edit-processor.ts:92-130 | a file missing from disk only ever gets an empty buffer, and every edited file is loaded, confirmed or not |
| EditEngine.ApplyToFilesUntouched | src/edit-processor.ts:136-167 | a file no queued edit names keeps its buffer |
| EditEngine.DeclinedEditLeavesEmptyFile | src/edit-processor.ts:92-130 | a declined edit to a missing file still leaves an empty file on disk |
| EditEngine.Consumed | src/edit-processor.ts:57-90 | the loop reads edit packets up to and including the first terminal packet |
| EditEngine.EditProcessor.constructor | src/edit-processor.ts:49-55 | a new processor has an empty manager and an empty queue |
| EditEngine.EditProcessor.ConfirmEdit | src/edit-processor.ts:92-130 | the file is loaded; the edit is queued exactly when it is a line edit and the operator accepts; the preview is the diff against the loaded buffer |
| EditEngine.EditProcessor.SortEdits | src/edit-processor.ts:185-193 | the queue becomes its stable descending sort |
| EditEngine.EditProcessor.ApplyConfirmedEdits | src/edit-processor.ts:132-171 | sorts the queue; the total is that of the queue; the buffers are the queue applied in sorted order; the packages are installed in order; the save throws exactly when a buffered path is unreadable, and otherwise the disk is every buffer saved |
| EditEngine.EditProcessor.ApplyOne | src/edit-processor.ts:137-166 | one apply turn loads, splices and stores one file, and installs its packages when there are any |
| EditEngine.EditProcessor.ApplyQueue | src/edit-processor.ts:136-167 | the loop over the sorted queue leaves the buffers the queue applied in order, and installs each edit's packages in order |
| EditEngine.EditProcessor.ApplyNext | src/edit-processor.ts:136-167 | one pass of the loop applies the first edit and leaves the rest to apply |
| EditEngine.EditProcessor.ProcessEditStream | src/edit-processor.ts:57-90 | the queue grows by the confirmed edits up to the first terminal packet; the queue is applied only when the operator agrees, and otherwise the disk is unchanged; an applied queue throws exactly when its save does |
| ApplyEdits.ReadLines | src/apply-edits.ts:40-49 | no lines only for an unreadable file, or a missing file with a change that is not an addition |
| ApplyEdits.ApplyEdit | src/apply-edits.ts:36-98 | applied exactly when the file reads and the edit is an install or an accepted line edit; only then is the spliced file written |
| ApplyEdits.AppliedEditReadsBack | src/apply-edits.ts:84-93 | the written file reads back as exactly the spliced lines |
| ApplyEdits.AgreesWithEngine | src/apply-edits.ts:84-93 | the one-edit path writes what the patch engine writes for the same edit |
| History.Find | src/edit-history.ts:24-26 | `find` by filename: the first matching entry, or none matches |
| History.SaveEdits | src/edit-history.ts:14-42 | an unusable history file, or an unreadable file read for a new entry, throws and leaves the history as it was; otherwise the stored history becomes the old one, or empty, with every edit recorded in order |
| History.RecordNext | src/edit-history.ts:23-38 | one edit is appended to its file's entry, or a new entry is read; the read fails exactly for an unrecorded unreadable file |
| History.ReadFailsStays | src/edit-history.ts:23-38 | once recording a prefix of the edits reads an unreadable file, recording them all does |
| History.ReadFailsExactly | src/edit-history.ts:23-38 | on a history with unique filenames, saving throws exactly when some edit is to an unreadable file the history does not record |
| History.RecordEntry | src/edit-history.ts:24-38 | one recording keeps filenames unique and positions fixed, and appends the edit to its file's entry |
| History.RecordAllEntry | src/edit-history.ts:14-42 | each file's entry holds its edits in order and the content it had when first seen |
| History.RevertLastChanges | src/edit-history.ts:44-94 | an unusable history file throws and changes nothing; with no history, an empty one or a declined prompt nothing changes; otherwise every recorded file is restored or deleted and the history is cleared |
| History.RestoredAt | src/edit-history.ts:73-86 | a file recorded as "" is gone, a recorded file gets its original content, an unrecorded file is untouched |
| History.SaveThenRevert | src/edit-history.ts:14-94 | saving then reverting restores each edited file to what it held before, or deletes it if it was empty or missing |
| History.OriginalIsFirstSeen | src/edit-history.ts:27-28 | recording more edits never changes a file's recorded original content |
| Verify.FixedEditJson | src/verify-edits.ts:78-94 | Anthropic: "{" plus the text before the first fence; OpenAI: the content; otherwise "" |
| Verify.VerifyEdit | src/verify-edits.ts:97-126 | the edit is dropped exactly on a parsed non-empty reply that is a skip; a parsed non-empty reply with a valid line change replaces the edit's change by it; otherwise only its change can differ |
| Verify.FailsOpen | src/verify-edits.ts:97-126 | an empty, unparsable or invalid reply leaves the edit as it was |
| Verify.ReplyReplacesChange | src/verify-edits.ts:112-116 | a reply with a line change replaces the edit's change by exactly that one |
| Verify.VerifierProvider | src/verify-edits.ts:43-46 | the stream's verifier is the table's selection for the preferred provider: OpenAI for OpenAI, Anthropic otherwise |
| Verify.Reached | src/verify-edits.ts:136-141 | the stream reaches the first packet that is an edit to an unreadable file, or its end; no packet before it throws |
| Verify.VerifyEditStream | src/verify-edits.ts:129-152 | the stream throws exactly when some edit is to a file that exists but cannot be read; the output is the filtered stream of the packets before the first such edit, verified by the selected provider |
| Verify.ForwardNext | src/verify-edits.ts:133-150 | one packet that does not throw is forwarded as the filter prescribes |
| Verify.FilterKeepsOthers | src/verify-edits.ts:148-150 | packets that are not edits pass through unchanged and in order |
| Verify.FilterNeverAdds | src/verify-edits.ts:129-152 | at most one packet goes out per packet in |
| Verify.NoSkipKeepsCount | src/verify-edits.ts:129-152 | without a skip, exactly one packet goes out per packet in |
| Verify.MissingFilePassesThrough | src/verify-edits.ts:136-139 | an edit to a missing file passes unverified whatever the reply |
| Streams.Validated | src/call-ai-claude.ts:79-105 | only candidates that pass the schema become edits, one each at most |
| Streams.EditPackets | src/call-ai-claude.ts:109-115 | each edit is yielded as its own packet, in order |
| Streams.ParsedOrError | src/call-ai-claude.ts:145-151 | the final packet is terminal, and carries the parse exactly when the text parses |
| Streams.EditsOrError | src/call-ai-gpt.ts:119-126 | the final packet is terminal; it is an error exactly on a failed or null parse; otherwise it carries `edits` when that is truthy and an empty list when it is absent or falsy |
| Streams.EndsOnceAfterEdits | src/call-ai-claude.ts:109-151 | edit packets and one terminal packet make a stream that ends once |
| Streams.InvalidCandidateIgnored | src/call-ai-claude.ts:79-105 | a candidate that fails the schema changes nothing validated |
| Streams.FlushedThenLast | src/call-ai-claude.ts:109-141 | the edits yielded one by one are the collected edits minus those of the last chunk |
| Streams.InvalidCandidateNoEffect | src/call-ai-claude.ts:79-141 | an invalid candidate changes neither the text nor the yielded edits |
| Streams.FirstPieceIsPrefix | src/call-ai-claude.ts:123-136 | the text echoed before a quote is a prefix of the chunk |
| Streams.Echo | src/call-ai-claude.ts:123-136 | the status moves forward by at most one step, and only on a quote; before the explanation and after it nothing is echoed |
| Streams.StatusOnlyAdvances | src/call-ai-claude.ts:123-136 | without a new `explain` key the status never goes back |
| Streams.EndedIsSilent | src/call-ai-claude.ts:123-136 | once the explanation has ended nothing more is echoed |
| Streams.QuotesEndExplanation | src/call-ai-claude.ts:123-136 | two quoted chunks after an `explain` key end the explanation |
| Streams.EmptyChunkIsNoChunk | src/call-ai-gpt.ts:96-97 | an empty content acts as a missing one |
| Streams.EchoChunk | src/call-ai-claude.ts:95-136 | one iteration's echo is `EchoStep` |
| Streams.Marks | src/call-ai-claude.ts:109-115 | one mark per chunk |
| Streams.MarksCount | src/call-ai-claude.ts:109-115 | before chunk `i` is processed, every edit validated from earlier chunks has been yielded |
| Streams.ChunkIteration | src/call-ai-claude.ts:109-141 | one iteration keeps the loop invariant |
| Streams.RunChunks | src/call-ai.ts:126-142 | the text is all chunks in order; yielded packets are the flushed edits; the echo is the status machine's output |
| Adapters.ClaudeMaxTokens | src/call-ai-claude.ts:39-45 | 8192 exactly for the sonnet model, else 4096 |
| Adapters.GetAIEditsFromClaude | src/call-ai-claude.ts:12-151 | the Anthropic adapter's packets, token limit, yield points and echo |
| Adapters.ClaudeEndsOnce | src/call-ai-claude.ts:109-151 | the stream yields the flushed edits in order, then exactly one terminal packet deciding on "[" plus the text |
| Adapters.ClaudeIgnoresInvalidCandidate | src/call-ai-claude.ts:79-105 | a candidate failing `EditSchema` changes nothing the adapter yields |
| Adapters.GptMaxTokens | src/call-ai-gpt.ts:31 | 16384 exactly for a "mini" model, else 4096 |
| Adapters.CodeRole | src/call-ai-gpt.ts:20 | the code goes as "system" exactly for an "o1" model, else as "user" |
| Adapters.GetAIEditsFromGPT | src/call-ai-gpt.ts:9-126 | the OpenAI adapter's packets, token limit, role, yield points and echo |
| Adapters.GptEndsOnce | src/call-ai-gpt.ts:88-126 | the stream yields the flushed edits in order, then exactly one terminal packet |
| Adapters.GptIgnoresInvalidCandidate | src/call-ai-gpt.ts:60-86 | a candidate failing `EditSchema` changes nothing the adapter yields |
| Fireworks.Payload | src/call-fireworks.ts:115-119 | a `data: ` line's payload is the rest of the line |
| Fireworks.DoneIsDonePayload | src/call-fireworks.ts:120 | a done line is one whose payload is `[DONE]` |
| Fireworks.UntilDone | src/call-fireworks.ts:115-120 | a chunk's lines are read up to the first `[DONE]` line |
| Fireworks.DeltaContent | src/call-fireworks.ts:122-145 | content is taken only from a truthy path and is never empty |
| Fireworks.LineContent | src/call-fireworks.ts:115-145 | a line appends at most one content, only from a `data: ` line |
| Fireworks.Append | src/call-fireworks.ts:136-141 | appending one content keeps the yielded packets in step with the text |
| Fireworks.ReadLine | src/call-fireworks.ts:115-145 | a `[DONE]` line stops the chunk and changes nothing; any other line appends its content |
| Fireworks.ReadLines | src/call-fireworks.ts:115-148 | a chunk appends the contents of its lines before `[DONE]` |
| Fireworks.ReadNext | src/call-fireworks.ts:115-145 | one line either stops the chunk at `[DONE]`, changing nothing, or appends its content |
| Fireworks.GetAIEditsFromFireworks | src/call-fireworks.ts:12-159 | the request is sent exactly when a key is set; the outcome is the missing-key, HTTP or no-body error, or the stream |
| Fireworks.FireworksEndsOnce | src/call-fireworks.ts:110-159 | a streaming reply yields its edits then exactly one terminal packet |
| Fireworks.OtherLinesIgnored | src/call-fireworks.ts:115-119 | removing a line that is not `data: ` changes nothing appended |
| Fireworks.DoneEndsOnlyItsChunk | src/call-fireworks.ts:110-148 | `[DONE]` ends only its own chunk; later chunks are still read |
| Continuation.Calls | src/call-ai.ts:151-160 | at least one call and at most `maxCalls + 1` |
| Continuation.Forward | src/call-ai.ts:162-178 | the forwarding loop computes `Dedup` |
| Continuation.GetAIEdits | src/call-ai.ts:40-184 | the packets of the whole call chain seeded with `collectedJSON ?? "["` |
| Continuation.DedupKeepsEdits | src/call-ai.ts:162-178 | forwarding edit packets yields only edit packets |
| Continuation.DedupEndsOnce | src/call-ai.ts:162-178 | forwarding a stream that ends once keeps its single terminal packet |
| Continuation.CallAIEndsOnce | src/call-ai.ts:146-178 | every call chain ends with exactly one terminal packet, whatever the number of continuations |
| Continuation.TerminalParsesFinalText | src/call-ai.ts:146-160 | the terminal packet carries the parse of the last call's text, or is an error |
| Continuation.FinalTextAccumulates | src/call-ai.ts:151-160 | the last call's text is the seed followed by the text of every call made |
| Continuation.ForwardedEditsAreNew | src/call-ai.ts:162-178 | every forwarded edit differs from every edit collected before it |
| Continuation.DuplicateNotForwarded | src/call-ai.ts:162-178 | a continuation edit repeating a collected one is never forwarded |
| GitHub.RepoName | src/github-utils.ts:17 | the repository name holds no `/` |
| GitHub.RepoCacheDir | src/github-utils.ts:16-19 | `path.join` of the cache root and the name, with empty, `.` and `..` names normalised |
| GitHub.TrailingSlashIsCacheRoot | src/github-utils.ts:16-19 | a URL ending in `/` gives the cache root itself |
| GitHub.RepoNameOfUrl | src/github-utils.ts:17 | `.../repo` and `.../repo.git` are cached under `repo` |
| GitHub.DotGitRemovedInside | src/github-utils.ts:17 | a `.git` inside the last segment is removed too, not only at its end |
| GitHub.CoreEnd | src/github-utils.ts:10-11 | a match holds `github.com/` and a non-empty owner and repository |
| GitHub.MatchFrom | src/github-utils.ts:10-11 | the optional prefixes are tried in engine order, and the match is found when the bare host matches |
| GitHub.Search | src/github-utils.ts:12 | a match found starts at or after the search position, and the pattern matches there as found |
| GitHub.SearchLeftmost | src/github-utils.ts:12 | the match found is the leftmost: the pattern matches at no earlier start |
| GitHub.SearchNone | src/github-utils.ts:12 | no match is found only when `github.com/<owner>/<repo>` starts nowhere at or after the search position |
| GitHub.ExtractGitHubUrlNone | src/github-utils.ts:9-14 | null exactly when no `github.com/<owner>/<repo>` occurs |
| GitHub.ExtractGitHubUrlFinds | src/github-utils.ts:9-14 | a found URL is a piece of the input that holds `github.com/` |
| RepoAnalyzer.JoinPath | src/repo-analyzer.ts:29 | the joined path starts with the directory |
| RepoAnalyzer.HasSourceFiles | src/repo-analyzer.ts:43-50 | true exactly when some entry has a `.ts`, `.js` or `.tsx` name |
| RepoAnalyzer.Score | src/repo-analyzer.ts:35-54 | 0, 5, 10 or 15; at least 10 exactly for a common source name; 5 more exactly when it holds a source file |
| RepoAnalyzer.Paths | src/repo-analyzer.ts:70 | `map` to paths keeps the order |
| RepoAnalyzer.Analyzer.constructor | src/repo-analyzer.ts:21 | the list starts empty |
| RepoAnalyzer.Analyzer.ExploreDirectory | src/repo-analyzer.ts:23-65 | the list grows by what `Explore` describes |
| RepoAnalyzer.Analyzer.ExploreEntry | src/repo-analyzer.ts:29-63 | one loop pass pushes what `Visit` describes |
| RepoAnalyzer.Analyzer.ExploreNext | src/repo-analyzer.ts:29-63 | one pass of the directory loop pushes what `Visit` describes for the next entry |
| RepoAnalyzer.AnalyzeRepoStructure | src/repo-analyzer.ts:20-71 | the paths of the pushed directories, stably sorted by score descending |
| RepoAnalyzer.ExploreWellListed | src/repo-analyzer.ts:23-65 | every pushed score is 5, 10 or 15 and every pushed path lies below the root |
| RepoAnalyzer.ExploreReadsFourLevels | src/repo-analyzer.ts:24 | the depth limit reads four levels of directories and only the names of the fourth level's entries |
| RepoAnalyzer.ResultOrder | src/repo-analyzer.ts:70 | every pushed directory is listed once, highest score first, ties in traversal order |
| ApiKeys.Upper | src/apiKeyUtils.ts:24-35 | ASCII upper case, character by character |
| ApiKeys.EnvVarName | src/apiKeyUtils.ts:24-35 | a supported provider's variable is its upper-cased name plus `_API_KEY`; any other raises "Unsupported provider" |
| ApiKeys.EnvVarNamesDistinct | src/apiKeyUtils.ts:24-35 | different providers read different variables |
| ApiKeys.CheckAPIKey | src/apiKeyUtils.ts:4-7 | raises exactly for an unsupported provider; otherwise true exactly when the variable is set and not empty |
| ApiKeys.SetAPIKeyEffect | src/apiKeyUtils.ts:9-22 | the key is then set exactly when it was set or a non-empty key was typed; the call returns the variable; only that variable changes |
| ApiKeys.SetAPIKeyIdempotent | src/apiKeyUtils.ts:9-22 | once the key is set, asking again changes nothing |
| ApiKeys.Environment.constructor | src/apiKeyUtils.ts:6 | the environment holds the given variables |
| ApiKeys.Environment.GetAndSetAPIKey | src/apiKeyUtils.ts:9-22 | the environment and the result are those of `SetAPIKey` |
| App.Inputs | src/app.ts:28 | the inputs are exactly the arguments that are not empty and do not start with `-` |
| App.ParseArguments | src/app.ts:25-47 | the flags; a trailing nickname selects its model and is not an input; otherwise the first model; no inputs ends the program |
| App.AdapterFor | src/app.ts:81-98 | Anthropic models go to Claude, OpenAI models to GPT, others are refused |
| App.DefaultIsClaude | src/app.ts:35-38 | the default model goes to Claude, and the selectable Fireworks model is refused |
| App.DroppedAnywhere | src/app.ts:28 | a flag is dropped wherever it stands |
| App.InputsOfInputs | src/app.ts:28 | the filter keeps a list of plain inputs as it is |

## Left out

- Network calls and the SDK clients are left out: the request bodies, the prompts, retries and HTTP details. Replies are inputs.
- Timing inside the incremental JSON parser is left out. Each chunk step carries what the parser completed after it.
- History.SaveEdits: a history file that parses to JSON other than a list of entries is left out, and so is a failing `writeFileSync`. An unusable file means one that cannot be read or does not parse.
- History.RevertLastChanges: a failing `unlinkSync` or `writeFileSync` during the revert is left out. Only an unusable history file throws in the model.
- Adapters.ClaudeEndsOnce, Adapters.GptEndsOnce, Fireworks.FireworksEndsOnce, Continuation.CallAIEndsOnce, Continuation.TerminalParsesFinalText: the incremental parser is taken to settle at the end of the stream. The program yields the terminal packet only after that parser's promise settles, and the token stream is never ended. So on a reply cut off inside the root value, as at the token limit, the program waits forever.
- EditEngine.FileManager.SaveAllFiles, EditEngine.EditProcessor.ApplyConfirmedEdits, ApplyEdits.ApplyEdit: a file that can be read is taken to be writable, and a missing path creatable. The disk model has no write permissions and no directories. So a read-only file that `writeFileSync` refuses, and a new file whose directory does not exist, are written in the model. In the program, `applyEdit` throws on the latter, since src/apply-edits.ts creates no directories; `saveAllFiles` creates the directory first.
- EditEngine.FileManager.SaveAllFiles: which buffers are written before a throw is not fixed, because the model's buffers do not keep the insertion order of the `Map`. Directories created by `mkdirSync` are not modelled.
- The internals of `JSON.parse` and of Zod are left out. `JSON.parse` is a function parameter, and each schema is modelled by what it accepts.
- Fractional line numbers are left out. JSON numbers are integers in the model.
- Console output, colours, spinners and prompts are left out. The previews are returned as data, and the answers are inputs.
- Shell commands are left out: `bun install`, and the `git clone` and `git pull` of `cloneOrUpdateRepo` (src/github-utils.ts:26-49). The analyser is modelled on the tree those commands would leave; `EditProcessor.ApplyConfirmedEdits` returns the package lists to install.
- The token and cost estimate of src/app.ts:57-73 is left out. It is floating point over an external tokenizer.
- The rest of `main` is left out: writing compiled-code.txt, the task prompt and the `listAvailableModels` output. Only the argument handling and the provider dispatch are modelled.
- The `max_tokens: 4096` and the model name of the request in src/call-ai.ts are left out. Only the Claude and GPT adapters' limits are modelled.
- The "continuing" packet type of src/call-ai.ts:54 is left out. It is declared but never yielded.
- Fireworks: content that is not a string is left out, and so are multi-byte characters split across decoded chunks.
- The glob expansion of directories in `processFiles` is a list of file paths given per input. `path.resolve`, `path.relative` and `readdirSync` errors are parameters.
- `statSync` is a stored entry kind in the analyser. The model does not capture symbolic links or `statSync` throwing.
- The capitalised provider name in the password prompt's message is left out.
- The in-place `sort` of the analyser's list and of the edit queue is modelled as a new sorted sequence. Sorting in place and aliasing are not captured.
- The repository analyser is modelled on a directory tree value. Reading it from disk during the walk is not captured.
- ProcessFiles.MatchLen: for the second import pattern (a braced block), only the fact that every match ends in `\n` is proved. Which lines it removes is not characterised.
- ProcessFiles.ImportLineRemoved: holds for lines ending in `\n` only. A line ending in `\r\n` keeps its import, as in the code.
- src/main.ts, src/askAI.ts, src/prompt.ts, src/askPrompt.ts and src/verifyPrompt.ts are not part of this model. They hold prompts and command wiring. src/edit-type.ts is folded into the `Change` type.

## Findings

| source | as written | input that shows it | evidently intended | confidence | as-written member | corrected member |
|---|---|---|---|---|---|---|
| src/edit-processor.ts:185-192 | edits are sorted by start line only, and the stable sort keeps arrival order on ties | an addition at line 2 ("X") then a replacement of line 2 ("Y") on `["a","b","c"]` gives `["a","Y","b","c"]` | the replacement removes the original line 2 and the addition inserts before it: `["a","X","Y","c"]` | not executed | EditEngine.SameLineAdditionIsOverwritten | EditEngine.FixedSortAddressesOriginalLines |
| src/edit-processor.ts:99 | `confirmEdit` reads the change as `edit.type.type`, but the adapters yield outputs of `EditSchema` (src/types.ts:15-21), whose `z.object` keeps only `explain`, `filename`, `change`, `code` and `newPackages` | any edit the model streams, e.g. `{"explain":"e","filename":"a.ts","change":{"type":"addition","atLine":1},"code":"x"}`: `edit.type` is undefined and reading `.type` of it throws a TypeError, so `processEditStream` rejects before any edit is confirmed or applied | the change is read from `edit.change`, the key the schema declares | not executed | Edits.ProcessorReadThrows | Edits.ChangeReadBack |

The `EditProcessor` class keeps the sort as written, so that its contracts describe what the program does. `EditEngine.SortEditsFixed` is the corrected sort. It breaks a tie at the same line by putting the edit that removes lines first. `EditEngine.FixedSortAddressesOriginalLines` proves the intended property about it.

`Edits.ProcessorReadThrows` shows that every object the adapters yield makes `edit.type.type` throw. `Edits.ChangeReadBack` shows that reading `change` instead gives the parsed edit's change. `EditEngine.EditProcessor` reads an edit's change that way.
