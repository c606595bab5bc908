# Mito: verified models of the completion, chat and sheet helpers

This project models, in Dafny, the self-contained logic of the Mito notebook
extensions and proves what that logic promises:

- **Inline completer** (`inline_completer.dfy`, module `InlineCompleter`):
  the `MitoAIInlineCompleter` class as a state machine over its current token,
  current stream, per-stream accumulator, message counter, disposed flag and
  settings. `fetch`, `_receiveStreamChunk`, `_resetCurrentStream`, `dispose`,
  `configure` and `stream` are sequential events. The pure `_cleanCompletion`,
  `_getPrefix` and `_getSuffix` are functions.
- **Markdown code blocks** (`markdown_strings.dfy`, module `MarkdownStrings`):
  splitting a chat message into prose and fenced code blocks, finding the
  first block, and adding or removing the python fence.
- **Sheet functions** (`misc_functions.dfy`, module `MiscFunctions`): the
  forward fill of `GETPREVIOUSVALUE` and the element classifier of `TYPE`.
- **Chat input** (`chat_input.dfy`, module `ChatInput`): `@`-mention detection,
  splicing the chosen variable into the text, the eight-line cell preview,
  and the order of the variables the dropdown offers.
- **Sheet tabs** (`sheet_tab.dfy`, module `SheetTab`): the two UI-state
  updaters of the footer tabs.
- **Export taskpane** (`export_taskpane.dfy`, module `ExportTaskpane`):
  default parameters, the file-name warning, the generate button's enabled
  rule and the field updaters.
- **Export code chunk** (`export_code_chunk.dfy`, module `ExportCodeChunk`):
  the generated pandas lines for CSV and Excel exports, the parameterizable
  params and the description comment.
- **User-defined import parameters** (`udf_param_config.dfy`, module
  `UdfParamConfig`): the left-to-right walk that remembers the last
  DataFrame parameter's sheet for later column-header parameters, the bool
  toggle encoding and the clone-and-set change handlers.

Two helper modules support them. `Text` (`text.dfy`) models the JavaScript
and Python string built-ins the code calls: `indexOf`, `split`, `join`,
`slice`, `trim`, `\s` and `str(n)`. `Wrappers` (`wrappers.dfy`) holds
`Option` and `Result`.

The completion cleaner is not idempotent, and the model keeps it so:
`"x\n\n"` cleans to `"x\n"`, and that cleans to `"x"`, because each pass
removes only one trailing newline. `CleanCompletionNotIdempotent` proves this.

## Model

| member | source | states |
|---|---|---|
| `InlineCompleter.StripFences` | mito-ai/src/Extensions/InlineCompleter/provider.ts:349-352 | exactly what is removed: "```python\n" from the front (or "```python" when no newline follows it), then "```" from the end of what is left, then one "\n" from the end of what is left after that; so at most 10 leading and 4 trailing characters go, and the text is unchanged iff it neither starts with "```python" nor ends with "```" or a newline |
| `InlineCompleter.CleanOpeningFence` | mito-ai/src/Extensions/InlineCompleter/provider.ts:349-352 | an opening "```python\n" is removed and the code after it is kept whole |
| `InlineCompleter.LastLine` | mito-ai/src/Extensions/InlineCompleter/provider.ts:359 | the prefix's last line is a suffix of the prefix, holds no newline, and follows a newline unless it is the whole prefix |
| `InlineCompleter.FirstLine` | mito-ai/src/Extensions/InlineCompleter/provider.ts:367 | the suffix's first line is a prefix of the suffix, holds no newline, and is followed by a newline unless it is the whole suffix |
| `InlineCompleter.LastLineAfterNewline` | mito-ai/src/Extensions/InlineCompleter/provider.ts:359 | the last line of `front + "\n" + line` is `line` whenever `line` has no newline |
| `InlineCompleter.DropDuplicatePrefix` | mito-ai/src/Extensions/InlineCompleter/provider.ts:357-363 | the text changes iff a prefix is given and its last line is non-empty and starts the text; then exactly that line is removed from the front |
| `InlineCompleter.DropDuplicateSuffix` | mito-ai/src/Extensions/InlineCompleter/provider.ts:365-371 | the text changes iff a suffix is given and its first line is non-empty and ends the text; then exactly that line is removed from the end |
| `InlineCompleter.CleanCompletion` | mito-ai/src/Extensions/InlineCompleter/provider.ts:348-373 | starting from the fence-stripped text: when a prefix is given and its last line is non-empty and starts the text, that line is cut from the front; then, when a suffix is given and its first line is non-empty and ends what is left, that line is cut from the end; nothing else changes. The result is a contiguous slice of the raw text, no longer than it |
| `InlineCompleter.CleanCompletionNotIdempotent` | mito-ai/src/Extensions/InlineCompleter/provider.ts:349-352 | cleaning twice can differ from cleaning once: "x\n\n" gives "x\n", then "x" |
| `InlineCompleter.CleanDropsEchoedLine` | mito-ai/src/Extensions/InlineCompleter/provider.ts:348-373 | a fenced completion that repeats the cursor's line loses both fences and that line, and keeps exactly what follows |
| `InlineCompleter.GetPrefix` | mito-ai/src/Extensions/InlineCompleter/provider.ts:269-271 | the prefix starts the request text and is `offset` long when the offset is in range |
| `InlineCompleter.GetSuffix` | mito-ai/src/Extensions/InlineCompleter/provider.ts:279-281 | prefix followed by suffix is the request text |
| `InlineCompleter.CleanItems` | mito-ai/src/Extensions/InlineCompleter/provider.ts:212-217 | one item per server item, each kept whole, with `insertText` its content cleaned against the request's prefix and suffix |
| `InlineCompleter.UpToTerminalAt` | mito-ai/src/Extensions/InlineCompleter/provider.ts:249-260 | a reader of the stream gets every reply up to and including the first done or error reply |
| `InlineCompleter.UpToTerminalNone` | mito-ai/src/Extensions/InlineCompleter/provider.ts:249-260 | with no done or error reply, a reader gets every delivered reply |
| `InlineCompleter.MitoAIInlineCompleter.constructor` | mito-ai/src/Extensions/InlineCompleter/provider.ts:35-50 | a new completer has counter 0, the default settings (disabled), no token, no stream and no accumulator |
| `InlineCompleter.MitoAIInlineCompleter.Configure` | mito-ai/src/Extensions/InlineCompleter/provider.ts:120-122 | the new settings replace the old ones, so `isEnabled` reports the new `enabled` |
| `InlineCompleter.MitoAIInlineCompleter.IsEnabled` | mito-ai/src/Extensions/InlineCompleter/provider.ts:226-228 | the completer is enabled exactly when its current settings say so |
| `InlineCompleter.MitoAIInlineCompleter.Accumulated` | mito-ai/src/Extensions/InlineCompleter/provider.ts:327 | the text accumulated for the current stream, or "" when there is no stream or nothing is stored for it |
| `InlineCompleter.MitoAIInlineCompleter.ResetCurrentStream` | mito-ai/src/Extensions/InlineCompleter/provider.ts:378-385 | the token becomes "", the old stream is stopped with its delivered replies kept, its accumulator is deleted and the stream becomes null |
| `InlineCompleter.MitoAIInlineCompleter.Dispose` | mito-ai/src/Extensions/InlineCompleter/provider.ts:127-136 | the first call marks the completer disposed and resets the stream; a second call changes nothing |
| `InlineCompleter.MitoAIInlineCompleter.ReceiveStreamChunk` | mito-ai/src/Extensions/InlineCompleter/provider.ts:302-346 | a chunk without a token fails; a stale token changes nothing; an accepted chunk appends its content to the accumulator and emits the cleaned accumulator with `isIncomplete = !done` |
| `InlineCompleter.MitoAIInlineCompleter.Fetch` | mito-ai/src/Extensions/InlineCompleter/provider.ts:144-221 | disabled rejects first, then disposed; otherwise the stream is reset; manual mode with a non-Invoke trigger returns no items and keeps the counter; else the counter grows by one, prefix and suffix are sent, a returned token opens a fresh stream, and the outcome is the error or the cleaned items |
| `InlineCompleter.MitoAIInlineCompleter.Stream` | mito-ai/src/Extensions/InlineCompleter/provider.ts:233-261 | disabled fails; another token yields nothing; the current token with no stream fails; a stopped stream yields nothing; otherwise the reader gets the delivered replies up to and including the first terminal one, the stream is stopped iff a terminal reply was delivered, and nothing is added to or removed from the stream |
| `MarkdownStrings.GetContentStringFromMessage` | mito-ai/src/utils/strings.tsx:13-22 | only user and assistant messages have text content |
| `MarkdownStrings.CodeBlockSplit` | mito-ai/src/utils/strings.tsx:39 | the split alternates prose and code blocks; each block opens at the first "```" not inside the prose before it and closes at the next "```"; the pieces concatenate to the input |
| `MarkdownStrings.SplitIsUnique` | mito-ai/src/utils/strings.tsx:39 | any split of that shape that concatenates to the text is the split `CodeBlockSplit` gives, so the leftmost, lazy match is the only one admitted |
| `MarkdownStrings.SplitStringWithCodeBlocks` | mito-ai/src/utils/strings.tsx:32-43 | empty or non-user/assistant content gives []; no part is blank; the parts are the non-blank pieces of the prose/code split of the content, and every split of that shape gives the same parts; no visible character is lost |
| `MarkdownStrings.FilterNonBlankMembers` | mito-ai/src/utils/strings.tsx:42 | the filter keeps exactly the parts that are not all white space |
| `MarkdownStrings.FilterKeepsText` | mito-ai/src/utils/strings.tsx:42 | dropping blank parts keeps every non-white-space character in order |
| `MarkdownStrings.FindFenced` | mito-ai/src/utils/strings.tsx:51 | the first part that starts with "```", or none when no part does |
| `MarkdownStrings.GetCodeBlockFromMessage` | mito-ai/src/utils/strings.tsx:49-52 | a found block starts with "```" and is one of the message's parts |
| `MarkdownStrings.FirstCodeBlock` | mito-ai/src/utils/strings.tsx:49-52 | a message holding a complete block yields its first code block |
| `MarkdownStrings.FencedBody` | mito-ai/src/utils/strings.tsx:79 | the text after the first "```python", cut at its first "```python" and then at the first "```" of that piece; so it holds no "```" and runs up to the next "```" or to the end |
| `MarkdownStrings.FencedBodyOverlap` | mito-ai/src/utils/strings.tsx:79 | with overlapping backticks, "```pythonx````" gives "x": the body ends at the first closing fence |
| `MarkdownStrings.AddMarkdownCodeFormatting` | mito-ai/src/utils/strings.tsx:72-91 | the result is "```python\n" + body + " \n```", where the body is the code (or its fenced body when it has "```python"), trimmed on request |
| `MarkdownStrings.RemoveMarkdownCodeFormatting` | mito-ai/src/utils/strings.tsx:106-113 | code without "```python" is returned unchanged; "```python" without "```python\n" is the source's failure; otherwise the text after the first "```python\n", cut at its next "```python\n" and then at the first "\n```" of that piece |
| `MarkdownStrings.RemoveStopsAtSecondOpening` | mito-ai/src/utils/strings.tsx:106-113 | "```python\na\n```python\nb" gives "a\n": the second opening line is cut before the overlapping "\n```" |
| `MarkdownStrings.RemoveAfterAdd` | mito-ai/src/utils/strings.tsx:72-113 | unwrapping wrapped code that has no "```python" and no "\n```" gives the code back with the added space |
| `MiscFunctions.GetElementType` | mitosheet/mitosheet/public/v3/sheet_functions/misc_functions.py:58-79 | the type name is one of bool, number, string, datetime, timedelta, object, and never 'NaN' |
| `MiscFunctions.ElementTypes` | mitosheet/mitosheet/public/v3/sheet_functions/misc_functions.py:66-79 | each name both ways: booleans are 'bool'; ints and floats, NaN included, are 'number'; strings are 'string'; datetimes, Timestamps and NaT are 'datetime'; timedeltas and pandas Timedeltas are 'timedelta'; None and anything else are 'object'; never 'NaN' |
| `MiscFunctions.BoolTestedBeforeInt` | mitosheet/mitosheet/public/v3/sheet_functions/misc_functions.py:67-70 | a boolean passes the int test but is named 'bool' |
| `MiscFunctions.TypeOf` | mitosheet/mitosheet/public/v3/sheet_functions/misc_functions.py:81 | one type name per cell, in order |
| `MiscFunctions.DefaultFor` | mitosheet/mitosheet/public/v3/sheet_functions/misc_functions.py:112-121 | the carried default is -1 for int, float and other dtypes, '' for strings, False for bools and NaT for datetimes |
| `MiscFunctions.ConditionColumn` | mitosheet/mitosheet/public/v3/sheet_functions/misc_functions.py:123 | a single boolean condition is repeated on every row; a condition column is used as it is |
| `MiscFunctions.FilledAtStep` | mitosheet/mitosheet/public/v3/sheet_functions/misc_functions.py:126-129 | a row meeting the condition takes its own value; any other row takes the previous row's result, or the default on the first row |
| `MiscFunctions.ForwardFillIsLastTrue` | mitosheet/mitosheet/public/v3/sheet_functions/misc_functions.py:124-129 | the result at row i is the value at the largest j <= i where the condition holds |
| `MiscFunctions.ForwardFillBeforeFirstTrue` | mitosheet/mitosheet/public/v3/sheet_functions/misc_functions.py:112-129 | before the first row that meets the condition, the result is the dtype default |
| `MiscFunctions.GetPreviousValue` | mitosheet/mitosheet/public/v3/sheet_functions/misc_functions.py:86-131 | no condition returns the series; a condition of another length is an error; otherwise the loop's result is the forward fill, one entry per row |
| `ChatInput.HandleInputChange` | mito-ai/src/Extensions/AiChat/ChatMessage/ChatInput.tsx:79-95 | the dropdown shows iff the last white-space separated word before the cursor starts with "@"; the filter is that word without the "@", else "" |
| `ChatInput.TrailingSpaceHidesDropdown` | mito-ai/src/Extensions/AiChat/ChatMessage/ChatInput.tsx:83-95 | text before the cursor that ends in white space hides the dropdown and resets the filter |
| `ChatInput.MentionOpensDropdown` | mito-ai/src/Extensions/AiChat/ChatMessage/ChatInput.tsx:83-91 | typing "@" and a word after white space opens the dropdown filtered by that word |
| `ChatInput.LastIndexOf` | mito-ai/src/Extensions/AiChat/ChatMessage/ChatInput.tsx:104 | the last "@" before the cursor, or -1 |
| `ChatInput.MentionText` | mito-ai/src/Extensions/AiChat/ChatMessage/ChatInput.tsx:107-112 | "`name`" with no parent DataFrame, "`df['name']`" otherwise |
| `ChatInput.HandleOptionSelect` | mito-ai/src/Extensions/AiChat/ChatMessage/ChatInput.tsx:98-131 | the new cursor is the "@" index plus the length of the inserted text |
| `ChatInput.SelectReplacesMention` | mito-ai/src/Extensions/AiChat/ChatMessage/ChatInput.tsx:102-117 | with an "@" before the cursor: the text before that "@", the mention, then the text after the cursor verbatim; the cursor lands right after the mention |
| `ChatInput.SelectWithoutAt` | mito-ai/src/Extensions/AiChat/ChatMessage/ChatInput.tsx:102-128 | with no "@" before the cursor the index is -1: `slice(0, -1)` keeps all of the input but its last character, the text after the cursor follows the mention, and the new cursor is the mention's length minus one |
| `ChatInput.ActiveCellCodePreview` | mito-ai/src/Extensions/AiChat/ChatMessage/ChatInput.tsx:156-158 | code of at most 8 lines is its own preview; longer code previews as its first 8 lines joined (a prefix of the code, followed there by a line break) and then the rest-of-cell marker |
| `ChatInput.EntryKeys` | mito-ai/src/Extensions/AiChat/ChatMessage/ChatInput.tsx:144 | the entries of a DataFrame's value are its columns in order |
| `ChatInput.Filter` | mito-ai/src/Extensions/AiChat/ChatMessage/ChatInput.tsx:137-139 | the filtered variables all have (or all lack) the DataFrame type, and there are no more of them than variables |
| `ChatInput.FilterAppend` | mito-ai/src/Extensions/AiChat/ChatMessage/ChatInput.tsx:137-139 | filtering a concatenation is filtering each run in turn, so the filter keeps the variables' relative order |
| `ChatInput.FilterSingle` | mito-ai/src/Extensions/AiChat/ChatMessage/ChatInput.tsx:137-139 | a single variable is kept, alone, exactly when its type matches the filter |
| `ChatInput.FiltersPartition` | mito-ai/src/Extensions/AiChat/ChatMessage/ChatInput.tsx:137-139 | the two filters together keep every variable exactly once |
| `ChatInput.Expand` | mito-ai/src/Extensions/AiChat/ChatMessage/ChatInput.tsx:137-139 | each variable is kept in place, with no parent DataFrame |
| `ChatInput.ColumnsOf` | mito-ai/src/Extensions/AiChat/ChatMessage/ChatInput.tsx:144-149 | one 'col' entry per column of a DataFrame, in order, tagged with its name |
| `ChatInput.ColumnEntriesShape` | mito-ai/src/Extensions/AiChat/ChatMessage/ChatInput.tsx:141-150 | every column entry is a 'col' with a parent, and there is one per column of all the DataFrames |
| `ChatInput.ColumnEntriesAppend` | mito-ai/src/Extensions/AiChat/ChatMessage/ChatInput.tsx:141-150 | the column entries of two runs of DataFrames are the first run's, then the second's |
| `ChatInput.ExpandedVariables` | mito-ai/src/Extensions/AiChat/ChatMessage/ChatInput.tsx:134-153 | the non-DataFrame variables, then the DataFrames, then the column entries, each group in its original order; nothing without a variable manager |
| `SheetTab.SelectPreviousGraphSheetTab` | mitosheet/src/components/footer/SheetTab.tsx:19-44 | a non-empty last graph key selects that graph, its tab and its taskpane; otherwise no graph, the data tab and no taskpane; other fields are kept |
| `SheetTab.OnTabClick` | mitosheet/src/components/footer/SheetTab.tsx:100-125 | a data tab selects the data tab and that sheet and closes only a graph taskpane; a graph tab selects that graph, opens its taskpane and closes the modal; other fields are kept |
| `SheetTab.ClickIsIdempotent` | mitosheet/src/components/footer/SheetTab.tsx:100-125 | clicking the same tab twice is the same as clicking it once |
| `SheetTab.SelectPreviousIsClickOnLastGraph` | mitosheet/src/components/footer/SheetTab.tsx:19-32 | selecting the previous graph is clicking the last graph's tab, except that the modal stays |
| `SheetTab.DataClickClosesGraphTaskpane` | mitosheet/src/components/footer/SheetTab.tsx:102-112 | after a data tab click no graph taskpane is open |
| `SheetTab.GraphSelectionOpensItsTaskpane` | mitosheet/src/components/footer/SheetTab.tsx:19-44 | after selecting the previous graph, the graph tab shows iff a graph is selected, and that graph's taskpane is open |
| `ExportTaskpane.GetDefaultParams` | mitosheet/src/mito/components/taskpanes/ExportToFile/ExportToFileTaskpane.tsx:35-51 | no parameters without a sheet at the index; otherwise a CSV export of that sheet named dfName + "_export" |
| `ExportTaskpane.InvalidFileNameWarning` | mitosheet/src/mito/components/taskpanes/ExportToFile/ExportToFileTaskpane.tsx:69-77 | CSV with ".xlsx" gives the CSV warning; Excel with ".txt" or ".csv" gives the Excel warning; otherwise the general file-name check decides |
| `ExportTaskpane.IsGenerateDisabled` | mitosheet/src/mito/components/taskpanes/ExportToFile/ExportToFileTaskpane.tsx:164 | the button is enabled exactly when there is a file name, a selected sheet, no warning and no request in flight |
| `ExportTaskpane.MismatchDisablesGenerate` | mitosheet/src/mito/components/taskpanes/ExportToFile/ExportToFileTaskpane.tsx:69-164 | a mismatched extension always disables the generate button |
| `ExportTaskpane.GenerateEnabledIff` | mitosheet/src/mito/components/taskpanes/ExportToFile/ExportToFileTaskpane.tsx:164 | the button is enabled iff there is a file name, a selected sheet, no mismatch, no general warning and no request in flight |
| `ExportTaskpane.DefaultParamsHaveNoMismatch` | mitosheet/src/mito/components/taskpanes/ExportToFile/ExportToFileTaskpane.tsx:44-77 | the default name never trips an extension check |
| `ExportTaskpane.SetFileName` | mitosheet/src/mito/components/taskpanes/ExportToFile/ExportToFileTaskpane.tsx:101-106 | only the file name changes |
| `ExportTaskpane.SetExportType` | mitosheet/src/mito/components/taskpanes/ExportToFile/ExportToFileTaskpane.tsx:123-128 | only the export type changes |
| `ExportTaskpane.SetSheetIndexes` | mitosheet/src/mito/components/taskpanes/ExportToFile/ExportToFileTaskpane.tsx:147-152 | only the selected sheets change |
| `ExportTaskpane.HandlersCommuteAndUndo` | mitosheet/src/mito/components/taskpanes/ExportToFile/ExportToFileTaskpane.tsx:101-152 | edits to different fields commute, and writing a field's old value back undoes an edit |
| `ExportTaskpane.CsvNameWarnsForExcel` | mitosheet/src/mito/components/taskpanes/ExportToFile/ExportToFileTaskpane.tsx:73-74 | switching a ".csv" name to Excel raises the Excel mismatch warning |
| `ExportCodeChunk.FontColorCall` | mitosheet/mitosheet/code_chunks/export_to_file_code_chunk.py:26 | the font-colour call appears only when a header colour is set |
| `ExportCodeChunk.BgColorCall` | mitosheet/mitosheet/code_chunks/export_to_file_code_chunk.py:27 | the background-colour call appears only when a header background is set |
| `ExportCodeChunk.FormatBlockLayout` | mitosheet/mitosheet/code_chunks/export_to_file_code_chunk.py:22-30 | a formatting block has nine lines: the sheet name on the second, and the font and background calls on the fifth and sixth, each blank unless its colour is set |
| `ExportCodeChunk.FormatCode` | mitosheet/mitosheet/code_chunks/export_to_file_code_chunk.py:15-32 | the workbook line, then one block per dataframe format (1 + len(df_formats) entries); an IndexError when a format has no dataframe name |
| `ExportCodeChunk.GetFormatCode` | mitosheet/mitosheet/code_chunks/export_to_file_code_chunk.py:15-32 | the loop builds exactly the format code above |
| `ExportCodeChunk.GetDescriptionComment` | mitosheet/mitosheet/code_chunks/export_to_file_code_chunk.py:46-48 | the comment is "Exports ", then the number of export entries written as Python's `str` does (at least one digit, no leading zero), then " to file " and the file name |
| `ExportCodeChunk.EntryLines` | mitosheet/mitosheet/code_chunks/export_to_file_code_chunk.py:51-59 | one line per export entry, in entry order, from that entry's dataframe name and location; an IndexError when an index names no dataframe |
| `ExportCodeChunk.GetCode` | mitosheet/mitosheet/code_chunks/export_to_file_code_chunk.py:50-62 | csv: one `to_csv` line per entry and no imports; excel: the `ExcelWriter` line, one `to_excel` line per entry, then the format code, importing pandas; any other type raises ValueError |
| `ExportCodeChunk.CsvCode` | mitosheet/mitosheet/code_chunks/export_to_file_code_chunk.py:51-55 | succeeds iff every entry's index names a dataframe (else IndexError); then one `to_csv` line per entry, in entry order, and no imports |
| `ExportCodeChunk.ExcelCode` | mitosheet/mitosheet/code_chunks/export_to_file_code_chunk.py:56-60 | succeeds iff every entry's index names a dataframe and every format has a name (else IndexError); then the `ExcelWriter` line, one `to_excel` line per entry, then exactly the format code, importing pandas |
| `ExportCodeChunk.GetParameterizableParams` | mitosheet/mitosheet/code_chunks/export_to_file_code_chunk.py:64-72 | csv: one file-path param per export location; excel: exactly one, for the file name; any other type raises ValueError |
| `ExportCodeChunk.CsvParamsMatchLines` | mitosheet/mitosheet/code_chunks/export_to_file_code_chunk.py:50-68 | a CSV export has exactly as many path params as `to_csv` lines |
| `UdfParamConfig.FindSheet` | mitosheet/src/mito/components/taskpanes/UserDefinedImport/UserDefinedFunctionParamConfigSection.tsx:51 | the first sheet whose name equals the value, or -1 when none does |
| `UdfParamConfig.ResolveSheetIndex` | mitosheet/src/mito/components/taskpanes/UserDefinedImport/UserDefinedFunctionParamConfigSection.tsx:51 | an empty value selects sheet 0; any other value the first sheet of that name, or -1 |
| `UdfParamConfig.ToggleBool` | mitosheet/src/mito/components/taskpanes/UserDefinedImport/UserDefinedFunctionParamConfigSection.tsx:113-118 | the toggle writes "true" or "false", the negation of what it shows |
| `UdfParamConfig.ToggleFlips` | mitosheet/src/mito/components/taskpanes/UserDefinedImport/UserDefinedFunctionParamConfigSection.tsx:113-118 | toggling flips the displayed state, and toggling twice restores it |
| `UdfParamConfig.InputFor` | mitosheet/src/mito/components/taskpanes/UserDefinedImport/UserDefinedFunctionParamConfigSection.tsx:67-122 | a column header reads the preceding sheet, or gets the error message when that index has no sheet; text types get a text input; bools show true iff the lower-cased value contains "true" |
| `UdfParamConfig.ElementFor` | mitosheet/src/mito/components/taskpanes/UserDefinedImport/UserDefinedFunctionParamConfigSection.tsx:44-149 | the element is named after its parameter; a DataFrame parameter gets a selector for the sheet its value resolves to and never fails; any other parameter gets a row holding the input `InputFor` gives, and fails exactly when that does |
| `UdfParamConfig.PreviousSheetIndex` | mitosheet/src/mito/components/taskpanes/UserDefinedImport/UserDefinedFunctionParamConfigSection.tsx:42-52 | the sheet index carried to a parameter is -1, 0 or a sheet's index, and is -1 whenever no DataFrame parameter comes before it |
| `UdfParamConfig.ElementAt` | mitosheet/src/mito/components/taskpanes/UserDefinedImport/UserDefinedFunctionParamConfigSection.tsx:44-149 | the element for parameter i is named after it, and a DataFrame parameter's element never fails |
| `UdfParamConfig.ParamRowElements` | mitosheet/src/mito/components/taskpanes/UserDefinedImport/UserDefinedFunctionParamConfigSection.tsx:33-156 | nothing without parameter types or values; otherwise exactly one element per parameter, in declaration order, each built with the last preceding DataFrame's sheet index |
| `UdfParamConfig.NoDataFrameBefore` | mitosheet/src/mito/components/taskpanes/UserDefinedImport/UserDefinedFunctionParamConfigSection.tsx:42-52 | with no DataFrame parameter before it, the previous sheet index is -1 |
| `UdfParamConfig.LastDataFrameBefore` | mitosheet/src/mito/components/taskpanes/UserDefinedImport/UserDefinedFunctionParamConfigSection.tsx:42-52 | the previous sheet index is the one the last DataFrame parameter before it resolved |
| `UdfParamConfig.ColumnHeaderWithoutDataFrame` | mitosheet/src/mito/components/taskpanes/UserDefinedImport/UserDefinedFunctionParamConfigSection.tsx:67-73 | a column-header parameter with no DataFrame before it always gets the error message |
| `UdfParamConfig.ColumnHeaderAfterDataFrame` | mitosheet/src/mito/components/taskpanes/UserDefinedImport/UserDefinedFunctionParamConfigSection.tsx:67-77 | a column-header parameter after a DataFrame parameter that names a sheet selects from that sheet |
| `UdfParamConfig.SetParam` | mitosheet/src/mito/components/taskpanes/UserDefinedImport/UserDefinedFunctionParamConfigSection.tsx:78-82 | the clone-and-set of every handler (here the column-header select; the text input at lines 102-107 is the same): the copy has that key set to the new value and every other key unchanged |
| `UdfParamConfig.OnDataframeChange` | mitosheet/src/mito/components/taskpanes/UserDefinedImport/UserDefinedFunctionParamConfigSection.tsx:58-63 | choosing a sheet writes its name into that one parameter; an index with no sheet throws |
| `UdfParamConfig.OnToggle` | mitosheet/src/mito/components/taskpanes/UserDefinedImport/UserDefinedFunctionParamConfigSection.tsx:114-119 | the parameter becomes "true" or "false", showing the opposite of what the toggle showed; every other parameter stays |
| `UdfParamConfig.DataframeChangeRoundTrip` | mitosheet/src/mito/components/taskpanes/UserDefinedImport/UserDefinedFunctionParamConfigSection.tsx:51-62 | after choosing a sheet, rendering again selects that sheet unless an earlier sheet has the same name |
| `UdfParamConfig.ToggleRoundTrip` | mitosheet/src/mito/components/taskpanes/UserDefinedImport/UserDefinedFunctionParamConfigSection.tsx:113-118 | after a toggle, the rendered toggle shows the opposite state |

## Left out

- Concurrency in the inline completer is not modelled. That covers the `PromiseDelegate` lock, the suspension of the async generator, the websocket client's `initialize`, `disconnect` and `dispose`, `Signal.clearData`, and the failure notifications. Each operation is one sequential event. The server's acknowledgement to `sendMessage` is an input to `Fetch`.
- `InlineCompleter.MitoAIInlineCompleter.Stream`: the reader is modelled as attached when the stream is created. It reads the replies delivered so far. The loop's re-check of `_currentToken` is not modelled, because no other event can run inside one sequential call.
- `InlineCompleter.MitoAIInlineCompleter.ReceiveStreamChunk`: the "stream not found" throw is excluded by the class invariant rather than modelled. A token is never current without a stream.
- The completer's constant `identifier`, `name` and `schema` are not modelled. `debouncerDelay` is carried in the settings; nothing in the completer reads it.
- Strings are sequences of Unicode code points. The JavaScript code counts offsets and lengths in UTF-16 code units; the model counts them in code points. This affects the request offset in `InlineCompleter.GetPrefix` and `InlineCompleter.GetSuffix`, the cursor in `ChatInput.HandleInputChange` and `ChatInput.HandleOptionSelect`, and the lengths passed to `slice` in `InlineCompleter.DropDuplicatePrefix` and `InlineCompleter.DropDuplicateSuffix`. Text with characters outside the Basic Multilingual Plane has no position-for-position counterpart. Lone surrogates, and offsets that fall inside a surrogate pair, are not represented.
- `MarkdownStrings.SplitStringWithCodeBlocks`: non-string message content (arrays of parts) is treated as absent.
- `InlineCompleter.CompletionStream` drops a reply emitted after `Stop`. Lumino's `Stream.stop()` only rejects the pending read and starts a fresh one, so a reader that starts later still sees such a reply.
- `InlineCompleter.MitoAIInlineCompleter.Fetch`: a rejection of `sendMessage` (the promise failing rather than answering) is not modelled. The acknowledgement is always an answer, successful or carrying an error.
- `UdfParamConfig.InputFor` and `UdfParamConfig.ToggleBool` lower-case ASCII letters only. No other character lower-cases to a letter of "true" or "password", so the comparisons they make agree with JavaScript's `toLowerCase` and `toLocaleLowerCase`.
- `FILLNAN` is a pass-through to pandas `fillna` and is not modelled. The series index is modelled as row positions, and pandas dtypes as an enumeration.
- `MiscFunctions.GetElementType` never returns 'NaN', as written. The `np.isnan` test raises because `np` is never imported, and the bare `except` swallows the error. A NaN float is therefore named 'number'.
- `getInvalidFileNameError` and `column_header_to_transpiled_code` come from modules outside this model. They are function parameters. `TAB` is taken to be four spaces.
- Rendering is not modelled: JSX, tooltips, display names, and the column list of a column-header select (a sheet's `columnIDsMap`). `handleOptionSelect` returns early when the text area is missing; that is not modelled, and neither is the focus and cursor placement done through `setTimeout`.
- `ChatInput.EntryKeys`: for a non-DataFrame value, the keys `Object.entries` gives are only counted, as character indices. Only DataFrame values reach it.
