# A verified model of the MacAICleaner extraction engine

`mac_ai_cleaner.py` is a desktop tool that fills new columns of a
spreadsheet. The user writes a rule template; the bulleted `label:` items
of the template become the field schema. For every row, the tool builds a
prompt from the template and the row's original cells and sends it to a
text-generation service. It parses the `field: value` lines of the reply
and writes the values into the row's new columns. Rows are processed in
batches, with a save of the output file after every batch. Two stop
buttons end a run: one saves first, the other does not.

This project models that engine in Dafny, in four parts:

- **Field schema** (`field_schema.dfy`, with the string helpers of `text.dfy`).
  The regular expression `[-*]\s*([^\n:：]+?)\s*[:：]` is a left-to-right
  scanner, proved to report exactly the matches Python's engine reports
  (stated against a declarative `PatternAt`), `clean_field_name` is a
  character filter followed by `strip()`,
  and the schema keeps each non-empty cleaned label once, in first-seen
  order. `ExtractDynamicFields` is the source's loop, proved equal to the
  function `SchemaOf`.
- **Row task** (`row_task.dfy`). The prompt of a row, and the reply parser
  of `process_single_row`. `ParseReply` is the source's loop, proved equal
  to the function `ParseReplySpec`.
- **Table and batches** (`table.dfy`, `batching.dfy`). Column addition,
  the merge of a row's result, the `added_fields` report, and the cut of
  the rows into batches by `range(0, total_rows, batch_size)`.
- **Coordinator** (`coordinator.dfy`, `cleaner.dfy`, `run_properties.dfy`).
  - The application object is the class `Cleaner.MacAICleaner`. It holds
    the `processing` flag, the table `df`, the schema `fields`, the
    progress queue `events`, the tables written to the output file
    `written`, and the number of calls of `save_excel_file`, `attempts`.
  - Its methods (`StartProcessing`, `ProcessData`, `StopAndSave`,
    `StopNoSave`, `SaveExcelFile` and the loop bodies) update those fields
    step by step.
  - Each method is proved to end in the state that a function of module
    `Coordinator` gives. The properties of whole runs are lemmas about
    those functions, in `run_properties.dfy`.

What a run cannot decide for itself is a parameter (`Coordinator.Env`):

- the service's reply for each row (an answer text, a failed call, or no
  reply within the coordinator's wait);
- whether the n-th write of the output file succeeds;
- which stop button, if any, was pressed by the time the batch loop
  reaches each batch boundary.

Python's `\w` is a parameter `word: char -> bool`. Facts that need it to
exclude whitespace and colons are stated under the hypothesis
`SaneWordClass(word)`.

Where the two differ, the model follows the code rather than a plain
reading of the pattern:

- **The trailing `\s*` of the pattern may cross a newline.** So `- a\n: x`
  captures `a`.
- **A label may be a single space.** `-  :` captures one space, which
  cleaning turns into `""`, and it is then dropped.
- **The final save always runs.** After the batch loop, `process_data`
  saves at mac_ai_cleaner.py:467 even when the run was ended by "stop
  without saving". The model keeps that final save.

## Model

| member | source | states |
|---|---|---|
| Text.TrimStart | mac_ai_cleaner.py:500 | `lstrip()` result is no longer than the input, does not start with whitespace, and only whitespace was removed from the front |
| Text.TrimEnd | mac_ai_cleaner.py:500 | `rstrip()` result is no longer than the input, does not end with whitespace, and only whitespace was removed from the back |
| Text.StripIsStripped | mac_ai_cleaner.py:498 | `strip()` yields a factor of its input that neither starts nor ends with whitespace |
| Text.StripIdempotent | mac_ai_cleaner.py:500 | stripping twice is stripping once |
| Text.NoSpaceIsStripped | mac_ai_cleaner.py:254 | a string without whitespace is left alone by `strip()` |
| Text.IndexOf | mac_ai_cleaner.py:505-508 | the index of the first occurrence of a character, or the length when it is absent (both directions) |
| Text.Split | mac_ai_cleaner.py:498 | `split('\n')` gives at least one piece, and no piece contains the separator |
| Text.JoinSplit | mac_ai_cleaner.py:489 | joining the pieces of a split gives back the string |
| Text.SplitJoin | mac_ai_cleaner.py:489 | splitting a join of separator-free pieces gives back the pieces |
| FieldSchema.KeepWordChars | mac_ai_cleaner.py:254 | the filter keeps only word and CJK characters, and leaves a string of such characters unchanged |
| FieldSchema.KeepWordCharsAppend | mac_ai_cleaner.py:254 | the filter works character by character: filtering a concatenation concatenates the filtered parts |
| FieldSchema.KeepWordCharsOne | mac_ai_cleaner.py:254 | a single character survives the filter exactly when it is a word or CJK character |
| FieldSchema.CleanFieldName | mac_ai_cleaner.py:252-254 | a cleaned name holds only word and CJK characters and is stripped |
| FieldSchema.CleanFieldNameIsFilter | mac_ai_cleaner.py:252-254 | for a sane `\w`, the final `strip()` removes nothing: the cleaned name is exactly the filtered string |
| FieldSchema.CleanFieldNameIdempotent | mac_ai_cleaner.py:252-254 | cleaning a cleaned name changes nothing |
| FieldSchema.CleanFieldNameHasNoSeparators | mac_ai_cleaner.py:246 | for a sane `\w`, a cleaned name holds no whitespace and no colon |
| FieldSchema.SkipSpaces | mac_ai_cleaner.py:241 | `\s*` consumes exactly the maximal run of whitespace |
| FieldSchema.NextStop | mac_ai_cleaner.py:241 | the first newline or colon (of either width) at or after a position |
| FieldSchema.LastInlineSpace | mac_ai_cleaner.py:241 | the last non-newline whitespace character before a position, the one `\s*` gives back when the label would otherwise be empty |
| FieldSchema.MatchAt | mac_ai_cleaner.py:241-242 | a match at a bullet ends just after a colon, and its group is non-empty and free of newlines and colons |
| FieldSchema.FindAll | mac_ai_cleaner.py:242 | every captured group is a non-empty run without newlines or colons |
| FieldSchema.MatchAtSound | mac_ai_cleaner.py:241 | what the scanner reports at a bullet is a match of the pattern (bullet, whitespace, label, whitespace, colon) whose group is the text at its start; the group starts as late as any match allows (greedy `\s*`), then ends as early as possible (lazy group), and the colon is the one then reached |
| FieldSchema.MatchAtComplete | mac_ai_cleaner.py:241 | when the scanner gives up at a position, the pattern matches there in no way at all |
| FieldSchema.MatchAtExact | mac_ai_cleaner.py:241 | the pattern matches at a position exactly when the scanner succeeds there (both directions) |
| FieldSchema.FindAllEmpty | mac_ai_cleaner.py:242 | `findall` returns nothing exactly when the pattern matches nowhere (both directions) |
| FieldSchema.FindAllLeftmost | mac_ai_cleaner.py:242 | the first group `findall` returns is the one reported at the leftmost position where the pattern matches, and the search resumes after that match |
| FieldSchema.Distinct | mac_ai_cleaner.py:244-248 | the kept list has no duplicates and holds exactly the non-empty names of the input (both directions) |
| FieldSchema.DistinctSnoc | mac_ai_cleaner.py:247-248 | one more label is appended exactly when it is non-empty and not yet kept |
| FieldSchema.DistinctFirstSeenOrder | mac_ai_cleaner.py:245-248 | kept names appear in the order of their first occurrence |
| FieldSchema.SchemaStep | mac_ai_cleaner.py:245-248 | one turn of the extraction loop extends the kept list by the new label exactly when it is new and non-empty |
| FieldSchema.ExtractDynamicFields | mac_ai_cleaner.py:239-250 | the loop returns the schema of the template: no duplicates, no empty name, and a name is in it iff it is a non-empty cleaned label |
| FieldSchema.SchemaFieldsAreClean | mac_ai_cleaner.py:246-250 | every schema field is non-empty and its own cleaned form; for a sane `\w` it holds no whitespace or colon |
| FieldSchema.SchemaFirstSeenOrder | mac_ai_cleaner.py:244-250 | schema fields are ordered by the first occurrence of their label in the template |
| RowTask.PromptCarriesRow | mac_ai_cleaner.py:489-490 | the prompt starts with the template, ends with the instruction, and its data part splits into one `name: value` line per original column, in order |
| RowTask.SplitAtSeparator | mac_ai_cleaner.py:505-510 | a line with `:` splits at its first `:`, otherwise a line with `：` at its first `：`, the value keeping later colons; a line with neither is skipped |
| RowTask.ParseLineStripped | mac_ai_cleaner.py:512-514 | a parsed value is whitespace-trimmed |
| RowTask.Collect | mac_ai_cleaner.py:516-517 | the collected map only has schema fields as keys |
| RowTask.CollectLastWins | mac_ai_cleaner.py:499-517 | a key is in the map iff some line names it, and its value comes from the last line naming it |
| RowTask.ParseReplyLastWins | mac_ai_cleaner.py:496-519 | the parsed reply has only schema keys, stripped values, and for each key the value of the last line naming it |
| RowTask.ParseStep | mac_ai_cleaner.py:499-517 | one turn of the parse loop sets the line's field exactly when the line parses to a schema field |
| RowTask.ParseReply | mac_ai_cleaner.py:496-519 | the parse loop returns the specified map: schema keys only, values stripped |
| RowTask.NoColonNoFields | mac_ai_cleaner.py:505-510 | a reply without any colon yields no field |
| RowTask.CollectNothing | mac_ai_cleaner.py:501-510 | lines that all contribute nothing give the empty map |
| RowTask.RowResult | mac_ai_cleaner.py:521-523 | a failed call or a timed-out wait gives the empty map |
| RowTask.RowResultInSchema | mac_ai_cleaner.py:516-519 | a row task only returns schema fields |
| Tables.AddColumns | mac_ai_cleaner.py:390-392 | same rows; the original columns first and every schema field a column; existing cells kept, new cells `""`; well-formedness preserved |
| Tables.AppendedColumns | mac_ai_cleaner.py:390-392 | the columns become the originals followed by the schema fields that were not columns, in schema order |
| Tables.WithoutMembers | mac_ai_cleaner.py:469 | a column is reported iff it is a column and not an original one |
| Tables.AddedFieldsAreNewSchemaFields | mac_ai_cleaner.py:468-469 | the reported added fields are exactly the schema fields that were not original columns, in order |
| Tables.MergeRow | mac_ai_cleaner.py:439-440 | the merge keeps the columns and the row count |
| Tables.MergeRowCells | mac_ai_cleaner.py:439-440 | the merge writes exactly the map's cells of that row and changes no other cell or row |
| Tables.MergeRowKeepsShape | mac_ai_cleaner.py:432-448 | merging schema fields keeps the table well formed; an empty map leaves it unchanged |
| Batching.Min | mac_ai_cleaner.py:417 | `min` of two values |
| Batching.BatchesFromShape | mac_ai_cleaner.py:413-417 | the `j`-th batch from `lo` is `[lo + j*B, min(lo + (j+1)*B, N))`, and there are `ceil((N-lo)/B)` of them |
| Batching.BatchesFromChain | mac_ai_cleaner.py:413-418 | batches are non-empty, at most `B` long, inside the range, contiguous, full but for the last, and span it |
| Batching.BatchesFromOrdered | mac_ai_cleaner.py:413-418 | each batch ends no later than any later one starts |
| Batching.BatchesPartition | mac_ai_cleaner.py:413-418 | `ceil(N/B)` batches partition rows `0..N-1` in order, only the last may be short, the first starts at 0 and the last ends at `N` |
| Batching.BatchesCount | mac_ai_cleaner.py:413 | there are `ceil(N/B)` batches |
| Batching.BatchAt | mac_ai_cleaner.py:413-417 | batch `j` is `[j*B, min((j+1)*B, N))` |
| Batching.RowInOneBatch | mac_ai_cleaner.py:413-418 | row `i` lies in batch `i / B` and in no other |
| Batching.BatchesCover | mac_ai_cleaner.py:413-418 | the batches reach row `N` |
| Batching.BatchEndsIncrease | mac_ai_cleaner.py:451-452 | the batch ends strictly increase |
| Coordinator.Logged | mac_ai_cleaner.py:386 | a status line changes only the event log |
| Coordinator.Saved | mac_ai_cleaner.py:350-360 | a save keeps the table, the schema and the flag |
| Coordinator.SaveThen | mac_ai_cleaner.py:395-396 | a save with a success note keeps the table, the schema and the flag |
| Coordinator.StopAndSaveSpec | mac_ai_cleaner.py:325-334 | the flag is cleared; with a table, one save attempt that either writes it and reports the stop or logs the failure; without one, nothing else changes |
| Coordinator.StopNoSaveSpec | mac_ai_cleaner.py:336-342 | the flag is cleared, nothing is saved, and the stop is reported |
| Coordinator.ApplyStop | mac_ai_cleaner.py:413-415 | a stop request keeps the table and the schema |
| Coordinator.RowStep | mac_ai_cleaner.py:432-448 | collecting a row keeps the row count, the schema, the flag and the saves |
| Coordinator.RunRows | mac_ai_cleaner.py:432-448 | collecting rows keeps the row count and the schema |
| Coordinator.BatchStep | mac_ai_cleaner.py:413-456 | a batch keeps the row count and the schema |
| Coordinator.RunBatches | mac_ai_cleaner.py:413-456 | the batch loop keeps the row count and the schema |
| Coordinator.Prepared | mac_ai_cleaner.py:382-396 | the table becomes the input with the schema's columns added, the schema and flag unchanged |
| Coordinator.ProcessDataSpec | mac_ai_cleaner.py:378-483 | however a run ends, the flag is clear and the schema unchanged |
| Coordinator.StartVerdict | mac_ai_cleaner.py:291-316 | Start runs iff the key and both paths are non-empty, the output is not locked, and the schema is non-empty |
| Coordinator.StartSpec | mac_ai_cleaner.py:283-323 | a refused start changes nothing, apart from the schema being set when the schema check failed; a started run ends with the template's schema and the flag clear |
| Cleaner.MacAICleaner.constructor | mac_ai_cleaner.py:37-39 | a new cleaner is not processing and has no table and no schema |
| Cleaner.MacAICleaner.Report | mac_ai_cleaner.py:386 | a status message is appended to the queue |
| Cleaner.MacAICleaner.SaveExcelFile | mac_ai_cleaner.py:350-360 | answers whether the write succeeded, appends the table to the file's writes or logs the error, and counts the attempt |
| Cleaner.MacAICleaner.StopAndSave | mac_ai_cleaner.py:325-334 | ends in the state `StopAndSaveSpec` gives |
| Cleaner.MacAICleaner.StopNoSave | mac_ai_cleaner.py:336-342 | ends in the state `StopNoSaveSpec` gives |
| Cleaner.MacAICleaner.ApplyStopRequest | mac_ai_cleaner.py:413-415 | the pressed button's method takes effect |
| Cleaner.MacAICleaner.AddFieldColumns | mac_ai_cleaner.py:390-392 | the loop leaves the table `AddColumns` gives |
| Cleaner.MacAICleaner.MergeRowResult | mac_ai_cleaner.py:439-440 | writing the map's cells one at a time ends in the merge of the whole map |
| Cleaner.MacAICleaner.ProcessSingleRow | mac_ai_cleaner.py:485-523 | returns the row task's map; logs the API error only when the call failed |
| Cleaner.MacAICleaner.CollectRow | mac_ai_cleaner.py:423-448 | ends in the state `RowStep` gives |
| Cleaner.MacAICleaner.CollectRows | mac_ai_cleaner.py:432-448 | the collection loop ends in the state `RunRows` gives |
| Cleaner.MacAICleaner.EndBatch | mac_ai_cleaner.py:450-456 | progress to the batch end, then a save with its note |
| Cleaner.MacAICleaner.RunBatch | mac_ai_cleaner.py:413-456 | ends in the state `BatchStep` gives |
| Cleaner.MacAICleaner.AtBoundary | mac_ai_cleaner.py:413-415 | the stop takes effect; the loop goes on iff rows are left and the flag is set |
| Cleaner.MacAICleaner.RunBatchLoop | mac_ai_cleaner.py:413-456 | the batch loop ends in the state `RunBatches` gives |
| Cleaner.MacAICleaner.PrepareTable | mac_ai_cleaner.py:382-396 | ends in the state `Prepared` gives |
| Cleaner.MacAICleaner.Conclude | mac_ai_cleaner.py:466-482 | ends in the state `Concluded` gives |
| Cleaner.MacAICleaner.ProcessData | mac_ai_cleaner.py:378-483 | ends in the state `ProcessDataSpec` gives |
| Cleaner.MacAICleaner.StartProcessing | mac_ai_cleaner.py:283-323 | returns `StartVerdict` and ends in the state `StartSpec` gives |
| RunProperties.ProgressOf | mac_ai_cleaner.py:452 | the progress values are drawn from the events |
| RunProperties.LoggedQuiet | mac_ai_cleaner.py:386 | a status line leaves the progress bar alone |
| RunProperties.SaveThenFacts | mac_ai_cleaner.py:350-360 | a save is one attempt; it writes the current table and logs the note, or logs the failure |
| RunProperties.ApplyStopFacts | mac_ai_cleaner.py:325-342 | a stop clears the flag; only stop-and-save attempts a save; progress unchanged |
| RunProperties.RowStepQuiet | mac_ai_cleaner.py:432-448 | collecting a row leaves the progress bar alone |
| RunProperties.RowStepCells | mac_ai_cleaner.py:432-448 | collecting a row changes at most that row's schema cells |
| RunProperties.RowStepKeepsTable | mac_ai_cleaner.py:432-448 | a timeout, a failed call, or an answer that yields no schema field leaves the table unchanged |
| RunProperties.RunRowsQuiet | mac_ai_cleaner.py:432-448 | collecting rows keeps the flag, the saves and the progress |
| RunProperties.RowStepMerged | mac_ai_cleaner.py:432-448 | after collecting a row, the row holds its old cells with the row task's result for its own prompt written over them |
| RunProperties.RunRowsCells | mac_ai_cleaner.py:432-448 | collecting rows changes at most those rows' schema cells, and each of those rows ends as its old cells with its own row task's result written over them |
| RunProperties.BatchStepFacts | mac_ai_cleaner.py:413-456 | a batch moves the progress to its end, makes one save attempt that writes the table after the batch, changes only its rows' schema cells, and leaves each of its rows holding its old cells with its own result written over them |
| RunProperties.RunBatchesCells | mac_ai_cleaner.py:413-456 | the batch loop changes at most the schema cells of rows from its start on |
| RunProperties.LastBoundary | mac_ai_cleaner.py:413-415 | a boundary with a stop, or no rows left, starts no batch |
| RunProperties.StrideIsProduct | mac_ai_cleaner.py:413 | the `b`-th boundary after `lo` is `lo + b*B` |
| RunProperties.StopRowIsStride | mac_ai_cleaner.py:413-415 | the batch loop stops at the boundary where the first stop button is seen, or at the end of the rows |
| RunProperties.RunBatchesMerged | mac_ai_cleaner.py:413-456 | after the batch loop, each row of the batches that ran holds its old cells with its own result written over them, and each row from the stopping boundary on is as it was |
| RunProperties.RunBatchesSaves | mac_ai_cleaner.py:413-456 | if the first stop is seen at the `m`-th boundary, `m` batches run with one save each, stop-and-save adds one, and the flag stays set only without a stop |
| RunProperties.RunBatchesProgress | mac_ai_cleaner.py:450-452 | in that run, the progress visits the ends of those `m` batches in order |
| RunProperties.PreparedFacts | mac_ai_cleaner.py:382-396 | the preparation makes one save attempt and leaves the progress bar and the flag alone |
| RunProperties.RunTrace | mac_ai_cleaner.py:378-483 | a run stopped at boundary `j` makes `2 + j` save attempts, plus one for stop-and-save, and the progress visits the first `j` batch ends |
| RunProperties.BatchEndsClimb | mac_ai_cleaner.py:451-452 | there are `ceil(N/B)` progress values; they strictly increase and the last is `N` |
| RunProperties.BatchEndsStopEarly | mac_ai_cleaner.py:413-415 | a run stopped at boundary `j` leaves the progress at `j*B`, short of `N` |
| RunProperties.UninterruptedRun | mac_ai_cleaner.py:378-483 | an uninterrupted run makes `1 + ceil(N/B) + 1` save attempts and the progress visits every batch end in order |
| RunProperties.RunEnd | mac_ai_cleaner.py:378-456 | before the final save, the table is the input with the schema columns added, changed only in schema cells |
| RunProperties.ConcludedFacts | mac_ai_cleaner.py:466-482 | the final save is one attempt; on success it writes the table and reports the original and added columns, otherwise it reports the failure |
| RunProperties.RunTable | mac_ai_cleaner.py:378-483 | the final table has the original columns then the new schema fields, the input's rows, and every non-schema cell as in the input |
| RunProperties.RunTableContents | mac_ai_cleaner.py:378-483 | in a run stopped at boundary `j` (or never), the final table holds, in each row before row `j*B`, the prepared row with its own result written over it, and in each row from `j*B` on, the prepared row unchanged |
| RunProperties.RunReport | mac_ai_cleaner.py:466-476 | the final save writes the final table and reports exactly the schema fields that were not original columns, or reports the failure |

## Left out

- The tkinter interface is not modelled: widgets, `reset_buttons`, the field preview and `update_progress_from_queue`. Output is only the event sequence.
- Configuration loading and saving, the file dialogs, `pd.read_excel` and `to_excel` are file I/O. A load is an optional table (`None` when it fails). A save is one more entry in `written`, and an oracle says whether it succeeds.
- `call_ai_api` is an HTTPS call. It is replaced by an oracle reply per row and prompt, and the API key is not modelled.
- The thread pool, `future.result(timeout=30)` and the race between the stop buttons and the worker thread are concurrency. Rows are collected one at a time in submission order.
- A stop request takes effect at the next batch boundary, including the boundary after the last batch. A stop pressed in the middle of a batch is not modelled.
- `executor.shutdown` is not modelled.
- Cleaner.MacAICleaner.ProcessSingleRow: a failed call logs its error just before the row's own outcome line. In the source, the worker thread logs it concurrently.
- Timing, elapsed and average times, and the floating-point percentage are not modelled. Progress is the pair `(batch_end, total_rows)`.
- The Unicode tables behind `\w` are not modelled; `\w` is a parameter. How `int()` reads the two numbers is not modelled either: a value it rejects is `None`.
- The "not a dict" and generic-exception branches at mac_ai_cleaner.py:441-442 and 447-448 cannot happen with this row task, so they are not modelled.
- RowTask.Cell: a missing cell reads as `""`. Rows of a well-formed table have every cell.
- A cell is modelled as the text the prompt prints for it. pandas dtypes are not modelled, nor is an empty spreadsheet cell: pandas reads it as NaN, which the prompt at mac_ai_cleaner.py:489 prints as `nan`.
- RunProperties.RunBatchesCells: states only which cells the batch loop may change. What the changed rows hold is stated by RunProperties.RunBatchesMerged.
- RunProperties.RunTable: states the columns, the row count and the non-schema cells of the final table. What its rows hold is stated by RunProperties.RunTableContents, for a given stop schedule.
- mac_app_tool.py, build_mac_app.py, app_builder.py, test_build.py and setup.py are packaging and diagnostics and are not part of this model.
