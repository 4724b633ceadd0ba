# Submission grading tool: a Dafny model

The repository is a small grading tool with three parts.

- **Grading application** (`main.py`). A teacher points it at a folder of student submissions, lists the file extensions to collect and pastes the exercise statement. For each file, the tool asks a remote language model to grade it. The model answers with a JSON list of exercises. The tool turns each answer into one row of a results table: fixed columns, plus `ex_<id>_grade`, `ex_<id>_feedback` and `ex_<id>_attempted` columns for each exercise. It exports the table to CSV. Failed files can be re-graded one at a time or all at once; either way, the row is updated in place.
- **DOCX→PDF converter** (`doctopdf.py`). It mirrors a folder tree of `.docx` files into an output tree of PDFs. Every folder and file name is normalised to ASCII, with spaces replaced by `_`.
- **Post-processor** (`csvpostprocess.py`). It reads a results CSV. From each row it takes the student's identifier out of the submission's Windows path, and keeps the total grade and maximum score beside it.

The model has one module per concern:

- `Strings`: the Python string built-ins the code relies on: `split`, `join`, `strip`, `replace`, `sorted` on strings, `str` of an integer and ASCII filtering.
- `Json`: parsed JSON values and `dict.get`.
- `Grading`: how one grading reply is classified.
- `Rows`: result rows and their flattening.
- `Export`: the CSV column order.
- `Scanner`: the folder scan.
- `Batch`: the whole grading run.
- `Retry`: the re-grading operations.
- `DocToPdf`: the converter.
- `CsvPostProcess`: the post-processor.
- `Session`: how the rows of a run become the table the retries update.

Some things come from outside the program: the remote model's reply, the clock, the folder listing (`glob`), Unicode NFD decomposition and the PDF conversion. The model takes each of these as a parameter.

A result row is a `map` from keys to cells, and operations on rows are functions from the old row to the new one. The table that the re-grade buttons update is the class `Retry.ResultTable`. Its methods rewrite the `rows` field in place, as the source mutates `results_data`.

## Model

| member | source | states |
|---|---|---|
| Grading.GradeFile | main.py:104-135 | The outcome is a success exactly when the reply parsed to a non-empty JSON list, and it then carries that list. An exception becomes a failure with its message. An empty list becomes the fixed "empty result list" failure. Unparsable or non-list text becomes the "Failed to parse" failure carrying the raw text. |
| Json.Get | main.py:164-167 | A key the entry does not hold gives the supplied default. A key it holds gives the value of the key's last occurrence, the one the dict built by `json.loads` keeps. |
| Scanner.NormalizeExtension | main.py:21-25 | The extension always starts with `.`. A stripped piece that already starts with `.` is kept as it is; any other stripped piece gets a `.` in front. |
| Scanner.Extensions | main.py:21-25 | There is one extension per comma-separated piece of the text, in order, each one normalised. |
| Scanner.PathJoin | main.py:26 | As `os.path.join`: an absolute second part replaces the first. Otherwise the parts are concatenated directly when the first is empty or ends in `/`, and with one `/` between them in every other case. |
| Scanner.PatternOfFolder | main.py:26 | For a folder without a trailing `/`, the glob pattern is `folder/**/*ext`. |
| Scanner.ScanFolder | main.py:18-29 | The list returned is sorted and is a permutation of the concatenated matches of every extension's glob. |
| Scanner.ScanResultUnique | main.py:29 | Any sorted permutation of the matches equals the sorted scan result, so the result does not depend on glob order. |
| Scanner.FoundHoldsEveryGlob | main.py:23-27 | Every match of every extension is kept, with multiplicity. A file matched by two listed extensions appears twice. |
| Scanner.FoundOnlyGlobbed | main.py:23-27 | Every file listed was matched by the glob of one of the extensions. |
| Scanner.NormalizeExtensionIdempotent | main.py:21-25 | Normalising an extension twice gives the same result as normalising it once. |
| Scanner.NormalizeExtensionForms | main.py:21-25 | `py`, `.py` and ` .py ` all normalise to `.py`. |
| Strings.Split | main.py:21 | `str.split` on one character gives at least one piece, and no piece contains the separator. |
| Strings.SplitJoin | csvpostprocess.py:7 | Splitting pieces joined by a separator they do not contain gives back the pieces. |
| Strings.SplitAtFirstSeparator | csvpostprocess.py:7 | Splitting text that starts with a piece and then the separator gives that piece first, followed by the split of the rest. |
| Strings.TrimStart | main.py:21 | The removed prefix is all whitespace, and the result is empty or starts with a non-space. |
| Strings.TrimEnd | main.py:21 | The removed suffix is all whitespace, and the result is empty or ends with a non-space. |
| Strings.StripEmptyIffBlank | main.py:217 | `s.strip()` is empty exactly when every character of `s` is whitespace. This is the test that rejects a blank exercise statement. |
| Strings.StripIdempotent | main.py:21 | Stripping twice gives the same result as stripping once. |
| Strings.StrLeTotal | main.py:29 | Python's string order is total. |
| Strings.StrLeTransitive | main.py:29 | Python's string order is transitive. |
| Strings.StrLeAntisymmetric | main.py:29 | Python's string order is antisymmetric. |
| Strings.SortStrings | main.py:29 | `sorted` returns a sorted permutation of its input. |
| Strings.SortedUnique | main.py:29 | Two sorted permutations of the same list are equal. |
| Strings.ReplaceChar | doctopdf.py:17-18 | `str.replace` of one character keeps the length, puts the new character where the old one was and changes nothing else. |
| Strings.DropNonAscii | doctopdf.py:26 | Encoding to ASCII with `ignore` leaves only ASCII characters, never lengthens the text and keeps ASCII text unchanged. |
| Strings.DropNonAsciiMembers | doctopdf.py:26 | A character appears in the result exactly when it appears in the input and is ASCII, so the ASCII characters of mixed text survive. |
| Strings.DropNonAsciiConcat | doctopdf.py:26 | Filtering a concatenation gives the concatenation of the filtered parts. Together with `DropNonAsciiChar`, this fixes the result for every input, order and repetitions included. |
| Strings.DropNonAsciiChar | doctopdf.py:26 | A single character is kept exactly when it is ASCII. |
| Strings.NatToString | main.py:164 | `str` of a natural number is a non-empty string of digits without a leading zero, and those digits read back in base ten give the number. |
| Strings.NatToStringInjective | main.py:178-183 | Two numbers print alike exactly when they are equal, so integer ids give distinct column names. |
| Rows.ExerciseOf | main.py:164-167 | The column name of an exercise is `str` of its `exercise_id`. A missing key takes its default: `'N/A'` (named `N/A`), `False`, `0` or `No feedback.`. A present key gives the value of its last occurrence in the entry. |
| Rows.Exercises | main.py:163-167 | There is one exercise per entry, read in order. |
| Rows.FirstNonObject | main.py:163-164 | Finds the first entry that is not a JSON object; every entry before it is an object. |
| Rows.FirstNonObjectUnique | main.py:163-164 | That position is the only one with this property. |
| Rows.ReadOneMore | main.py:169-183 | Proof step for the loop in `FlattenResultsToRow`, not a property of its own: it unfolds the total, the attempted flag, the feedback blocks and the written columns by one exercise. |
| Rows.FlattenResultsToRow | main.py:145-190 | The loop computes `Flatten`. It stops with the partial row at the first entry that is not an object, where `.get` raises. |
| Rows.FlattenEmptyList | main.py:155-161 | An empty list writes grade `0 / 0`, the "No exercises" feedback, `is_complete` false and zero totals. |
| Rows.FlattenAggregates | main.py:163-190 | For a list of objects, the row holds the total over max score, the joined feedback blocks, `is_complete` as the conjunction of attempted flags, the numeric total and a max score equal to the number of entries. |
| Rows.TotalWithinMaxScore | main.py:169-172 | With every grade on the 0..1 scale, the total lies between 0 and the max score. |
| Rows.TotalIsSumOfNumericGrades | main.py:169-171 | For any mix of grades, the total is the sum of the list of grades that are numbers. Grades of any other type add nothing. |
| Rows.AllAttemptedIff | main.py:174-175 | `is_complete` holds exactly when every entry's `is_attempted` is truthy. |
| Rows.MissingAttemptedIsNotAttempted | main.py:165 | An entry without `is_attempted` counts as not attempted. |
| Rows.AffixInjective | main.py:181-183 | Two `ex_<id>_<suffix>` names with the same suffix are equal exactly when the ids are equal. |
| Rows.ColumnNames | main.py:181-183 | Two exercises share a column exactly when their ids print alike. The grade, feedback and attempted columns never collide, and all are `ex_` columns. |
| Rows.WriteExerciseKeys | main.py:181-183 | Writing one exercise adds exactly its three columns and leaves the row's other keys unchanged. |
| Rows.WriteExercisesKeys | main.py:181-183 | Writing the exercises adds exactly their columns and leaves the row's other keys unchanged. |
| Rows.ExerciseKeysCover | main.py:181-183 | Every exercise's three columns are among the dynamic columns written. |
| Rows.ExerciseKeysOnly | main.py:181-183 | Every dynamic column written belongs to some exercise and is an `ex_` column. |
| Rows.LastEntryWins | main.py:181-183 | When two entries share an id, the later entry's grade, feedback and attempted values are the ones kept. |
| Rows.FlattenKeepsOtherKeys | main.py:145-190 | Flattening only adds or overwrites the aggregate columns and the `ex_` columns of the entries it read; every other key keeps its value. |
| Rows.FlattenDynamicKeys | main.py:163-190 | After a complete flattening, the `ex_` columns are the row's own plus exactly those of the entries. |
| Rows.FlattenLastWins | main.py:163-190 | In the flattened row, an exercise's columns hold the values of the last entry with its id. |
| Rows.FlattenCompletes | main.py:163-164 | Flattening finishes exactly when every entry is an object. |
| Rows.FlattenRaisedMessage | main.py:164 | Otherwise it raises the `.get` error of the first entry that is not an object. |
| Rows.FlattenExKeys | main.py:163-183 | The `ex_` columns after flattening are the row's own plus those of the entries read before it finished or raised. |
| Rows.FlattenKeys | main.py:163-190 | The keys after flattening are the row's own, plus the columns of the entries read, plus the aggregate keys when it finished. |
| Rows.FixedNotEx | main.py:305 | A key is treated as a dynamic column exactly when its name starts with `ex_`. |
| Rows.StripEx | main.py:305-307 | The cleared row has no `ex_` key, keeps every other key with its value and has no new key. |
| Rows.ClearExKeys | main.py:305-307 | The deletion loop computes `StripEx`. |
| Rows.Basename | main.py:245 | `os.path.basename` on POSIX is the suffix of the path after its last `/`, and it contains no `/`. |
| Rows.IdentityRow | main.py:243-248 | A new row holds `file_path`, `file_name`, `timestamp` and the retry label. |
| Rows.BaseRowShape | main.py:243-248 | A new row's `file_path` is the path and its `file_name` is the path's basename. |
| Rows.FailureShape | main.py:255-262 | A failure sets status `failed`, the error, an empty grade and feedback, `is_complete` false and zero totals, and keeps every other key. |
| Rows.SuccessStatus | main.py:250-254 | A success sets status `success` and an empty error before flattening. |
| Rows.SuccessExKeys | main.py:250-254 | After a success, the `ex_` columns are the row's own plus those of the entries read. |
| Rows.SuccessKeys | main.py:250-254 | After a success, the keys are the row's own, plus the entries' columns, plus the aggregate keys when flattening finished. |
| Rows.SuccessKeeps | main.py:250-254 | A success leaves every key it does not write with its old value. |
| Rows.RegradeFailed | main.py:304-323 | A failed re-grade clears the old `ex_` columns, writes the failure fields and a new timestamp, and keeps the rest. |
| Rows.RegradeSucceeded | main.py:304-323 | A successful re-grade of a list of objects clears the old `ex_` columns and leaves exactly the new entries' columns. It sets status `success`, an empty error and a new timestamp. |
| Rows.RegradeKeepsOthers | main.py:304-323 | A completed re-grade keeps every key that is neither an `ex_` column nor one it writes. |
| Rows.RegradeRaised | main.py:309-313 | When flattening raises, the error is the `.get` failure of the first entry that is not an object. The row has already lost its old `ex_` columns, holds those of the entries read before that one, and is marked `success` with an empty error. |
| Rows.RegradeRaisedKeeps | main.py:309-313 | In that case, every other key keeps its old value, including the previous aggregates and timestamp. |
| Rows.NewRowWellFormed | main.py:243-262 | Every completed new row has the identity keys, the nine core columns, and status `success` or `failed`. |
| Rows.FailureStatus | main.py:256 | The failure fields mark the row `failed`. |
| Rows.SuccessCoreKeys | main.py:250-254 | A success keeps the core columns present. |
| Rows.SuccessKeepsKey | main.py:250-254 | A success leaves a key it does not write unchanged. |
| Rows.FailedWellFormed | main.py:255-262 | A failure of a row with identity keys is well formed. |
| Rows.SucceededWellFormed | main.py:250-254 | A success of a row with identity keys is well formed, and its path and name are kept. |
| Rows.ApplyOutcomeWellFormed | main.py:250-262 | Either outcome turns a row with identity keys into a well-formed row. |
| Rows.RegradeWellFormed | main.py:304-323 | Re-grading keeps a row well formed, whether it completes or raises. |
| Export.KeepPresentInOrder | main.py:204 | The present core columns keep the fixed order (they form a subsequence of it) and, like the fixed list, have no repeats. |
| Export.ExColumnsDistinct | main.py:201 | The dynamic columns of a frame without repeated names have no repeats. |
| Export.CsvColumnsShape | main.py:193-206 | The export lists the present core columns in the fixed order, then exactly the frame's `ex_` columns, sorted. |
| Export.CsvColumnsMembers | main.py:193-206 | A column is exported exactly when it exists and is a core or `ex_` column; `feedback` and `retry_button` never are. |
| Export.CsvColumnsDistinct | main.py:193-206 | The export has no repeated column. |
| Export.CoreNotEx | main.py:196-201 | No core column is an `ex_` column. |
| Export.CsvColumnsOrderIndependent | main.py:193-206 | Two frames with the same columns export the same list, whatever order their columns come in. |
| Batch.FileRows | main.py:234-264 | There is one flattening result per submission file. Each is the new row for that file, its grading outcome and its timestamp. |
| Batch.CountStatus | main.py:276-277 | A status count never exceeds the number of rows. Its value is fixed by `Batch.CountsAddUp` (successes plus failures equal the rows) and `Batch.CountSuccesses` (successes equal the successful gradings). |
| Batch.ResultsPathShape | main.py:270 | For a folder given without a trailing `/`, the results file is `folder/grading_results_<stamp>.csv`. |
| Batch.ProcessSubmissions | main.py:209-287 | A missing key, a missing folder and a blank statement each give their own message, in that order of precedence. No file found gives the "No submission files" message. Otherwise the run either reports the file count, the success and failure counts and the results path, with the row list, or ends with the error of the first row whose flattening raised. |
| Batch.RowForFile | main.py:243-262 | The row built for one file is the new row for its outcome. |
| Batch.CrashPersists | main.py:234-287 | Once one row has raised, the run's outcome is that error, whatever follows. |
| Batch.CollectKeepsRows | main.py:232-264 | A run that finishes keeps one row per file, in file order. |
| Batch.CollectCrashes | main.py:234-287 | The run fails exactly when some row's flattening raised, and it reports the first such error. |
| Batch.BuiltRowPerFile | main.py:234-264 | In a finished run, row `i` is the completed new row of file `i`. |
| Batch.BuiltRowsWellFormed | main.py:243-264 | In a finished run, every row is well formed and its status reflects its file's grading outcome. |
| Batch.CountsAddUp | main.py:276-278 | For well-formed rows, the success and failure counts add up to the number of files. |
| Batch.CountSuccesses | main.py:276 | The success count is the number of files whose grading succeeded. |
| Batch.BatchCounts | main.py:276-278 | In a finished run, successes plus failures equal the file count, and successes equal the number of successful gradings. |
| Retry.FailedIndices | main.py:395 | The indices are in range and increasing, and an index is listed exactly when its row has status `failed`. |
| Retry.RetryMany | main.py:403-413 | Re-grading keeps the number of rows and never counts more successes than attempts. |
| Retry.RetryAllNext | main.py:403-413 | One more iteration replaces the row at the next failed index by its re-graded row and adds one success when that re-grade succeeded. |
| Retry.RetryStepWellFormed | main.py:403-413 | A retry step, including the critical-error path, keeps a row well formed. |
| Retry.RegradeRow | main.py:290-325 | The helper's result is `Regrade` of the row with the reply's outcome. |
| Retry.RetryManyKeepsOthers | main.py:403-413 | A row that is not retried is unchanged. |
| Retry.RetryManyRetried | main.py:403-413 | Each retried row is the result of its own retry step. |
| Retry.RetryStepSucceeds | main.py:407-410 | A retry counts as a success exactly when the grading succeeded and the flattening completed. |
| Retry.RetryStepStatus | main.py:407-413 | A completed re-grade gives the re-graded row. A raised flattening marks the row `failed` with the "Critical retry error" message. |
| Retry.RetryAllSuccesses | main.py:400-410 | The success count is the number of retries that succeeded. |
| Retry.RetryAllWellFormed | main.py:403-413 | Retrying any failed rows keeps every row well formed. |
| Retry.RetryAllRows | main.py:395-413 | After "retry all", each failed row is its own retry step and every other row is unchanged. |
| Retry.SingleRetryInterrupted | main.py:346-379 | When the re-grade's flattening raises, the single retry leaves the row marked `success` with an empty error. "Retry all" marks the same row `failed`. |
| Session.BatchRowsWellFormed | main.py:264-284 | Every row a finished batch hands to the retries is well formed, which the table's constructor requires. |
| Retry.ResultTable.constructor | main.py:284 | A table built from well-formed rows is valid and holds exactly those rows. |
| Retry.ResultTable.UpdateRow | main.py:290-325 | Only the chosen row changes, and it becomes its `Regrade`. The status reported is the grading outcome's. |
| Retry.ResultTable.RetryAllFailed | main.py:381-428 | A missing key, a blank statement, an empty table and no failed row each give their message and leave the rows unchanged. Otherwise the rows become the result of retrying every failed row, and the message reports the failed total with its successes and failures. |
| Retry.ResultTable.RetryRows | main.py:400-413 | The loop leaves the rows and the success count as `RetryMany` defines for the given indices, and the rows stay well formed. |
| Retry.ResultTable.RetryOne | main.py:407-413 | Only the chosen row changes, to its retry step, and the method reports whether that step succeeded. |
| Retry.ResultTable.RetrySingle | main.py:328-379 | A missing key, a blank statement, a click outside the retry column and an invalid row each give their message and change nothing. Otherwise only the chosen row is re-graded, and the message reports success, or failure with the row's error, or the interruption. |
| DocToPdf.NormalizeName | doctopdf.py:7-31 | A normalised name is pure ASCII and contains no space. |
| DocToPdf.NormalizeAscii | doctopdf.py:7-31 | An ASCII name only has its spaces replaced by `_`. |
| DocToPdf.NormalizeIdempotent | doctopdf.py:7-31 | Normalising twice gives the same result as normalising once. |
| DocToPdf.NormalizeKeepsD | doctopdf.py:15-31 | `Đ` and `đ` become `D` and `d`, spaces become `_`, and every other ASCII character is kept in place. |
| DocToPdf.Stem | doctopdf.py:79 | The stem is a prefix of the file name. |
| DocToPdf.LastDot | doctopdf.py:79 | Finds the last `.` of the name, if there is one. |
| DocToPdf.StemOfDocx | doctopdf.py:79 | The stem of `name.docx` is `name`; a bare `.docx` is its own stem. |
| DocToPdf.JoinPath | doctopdf.py:87 | `joinpath` keeps the base and appends only parts that are neither empty nor `.`. |
| DocToPdf.JoinPathKeepsAll | doctopdf.py:87 | Parts that are neither empty nor `.` are all appended. |
| DocToPdf.NormalizeAll | doctopdf.py:75 | Each folder name is normalised on its own, in order. |
| DocToPdf.OutputPathShape | doctopdf.py:69-87 | The output path is the output folder, then the normalised folders, then the normalised stem plus `.pdf`. When no normalised folder name is empty, the tree is mirrored one folder for one folder. |
| DocToPdf.NonAsciiFolderVanishes | doctopdf.py:73-87 | A folder name without any ASCII character normalises to the empty string, so its files land one level higher. |
| DocToPdf.NoAsciiDropped | doctopdf.py:26 | Text with no ASCII character is dropped entirely. |
| DocToPdf.CountConverted | doctopdf.py:67-105 | The converted count never exceeds the number of documents. Its value is tied to the conversions by `DocToPdf.ProcessDirectory`, whose loop counts each successful conversion. |
| DocToPdf.ProcessDirectory | doctopdf.py:33-105 | A missing input folder and an empty document list stop early. Otherwise every document is attempted: the converted count is the number of successful conversions, and converted plus failed equals the number of documents. |
| CsvPostProcess.ExtractName | csvpostprocess.py:7 | The name is missing exactly where Python raises `IndexError`: a path with fewer than two components, or a folder with fewer than three `_` pieces. A name that exists contains neither separator. |
| CsvPostProcess.ExtractFromLayout | csvpostprocess.py:7 | For a path laid out as folders, then a folder `a_b_c…`, then a file, the extracted name is the folder's third-from-last piece. |
| CsvPostProcess.JoinAvoids | csvpostprocess.py:7 | Joining pieces free of a character with another separator keeps that character out. |
| CsvPostProcess.PostProcess | csvpostprocess.py:6-9 | The script fails exactly when some row's name cannot be extracted. Otherwise it produces one row per input row, with the extracted name and the copied grade and max score. |

## Left out

- The remote model: the client, the file upload, the polling for the upload to finish, the deletion and the prompt text are not modelled. Each file's reply is a parameter (`RemoteReply`): an exception message, or the reply text with its parsed JSON, if any.
- `json.loads` is not modelled; the reply carries its parse result. `json.dumps` into `debug.log` is left out, since it is I/O.
- Number formatting is kept symbolic: the `"{total} / {max}"` grade and the float rendering of grades are `Cell` values (`Ratio`, `Summary`), not text. Python's float repr is not modelled.
- The feedback text of each exercise is modelled as a `Block` value rather than the formatted Markdown string.
- `glob.glob`, the file system, `os.path.exists` and `Path.is_dir` are parameters (`glob`, `folderExists`, `isDirectory`, `docs`).
- `datetime.now()` is a parameter (`now`, `clock`, `stamp`). The timestamp format itself is not modelled.
- Unicode NFD decomposition is a parameter (`nfd`). The lemmas assume only that it leaves ASCII text unchanged.
- `docx2pdf.convert` is the parameter `convert`, which answers success or failure per document. The `mkdir` calls, the printing and the timing of `process_directory` are left out.
- CSV reading and writing (`to_csv`, `read_csv`, the `utf-8-sig` encoding) and pandas frames are left out. Export is modelled as the column list `_get_csv_columns` returns.
- Gradio progress bars, display frames and `gr.update` are UI output and are left out.
- `configure_gemini_client` failing, and other exceptions outside the modelled paths, are left out: the model has no source of such errors.
- `Retry.ResultTable.UpdateRow` requires the row to hold `file_path`; the source would raise `KeyError` there. Rows built by the program always hold it.
- `Retry.ResultTable.RetrySingle` takes the clicked row index as a natural number; a negative index from the UI event is not modelled.
- Paths follow POSIX `os.path`: `Scanner.PathJoin` and `Rows.Basename` use `/` only. On Windows, `ntpath` also splits at `\`, joins with `\` and handles drive letters; none of that is modelled.
- `Json.Repr` puts single quotes around strings without escaping. Python switches to double quotes for a string that holds `'`, and escapes control characters; neither is modelled. This affects the column names of ids that are lists or dicts holding such strings.
- Row keys are the `Key` datatype: the fixed column names, or any other name. The `ex_` prefix test is done on the key's text.
- Retry.RetryMany: its own contract bounds only the row count and the success count; the rows it produces are characterised by `Retry.RetryManyRetried` and `Retry.RetryManyKeepsOthers`.
