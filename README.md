# GST automation tasks, modelled in Dafny

This project models the core of a menu-driven command-line tool that automates
work around India's Goods and Services Tax (GST) portal. The entry point loads a
list of tasks and shows them as a numbered menu. It reads the user's choice and
runs the chosen task: first the task's `get_params`, then its `execute`. This
repeats until the user picks "Exit", the input runs out, or a task raises an
exception or calls `exit`, since nothing catches either. The tasks are:

- **token generation**: send an OTP, read it from the user (or "resend"),
  validate it, store the returned token, and back off exponentially, for at most
  three failed attempts;
- **taxpayer details**: read GSTINs from a CSV or Excel file, fetch each one's
  details, and write the selected fields to a workbook next to the input;
- **tax filing status**: for every CSV/XLSX file in a directory, look up each
  GSTIN's filing for one return period, and write one output workbook per file;
- **pre-registration** (two versions): split a table into a "unique" table and
  duplicate reports keyed by GSTIN and by phone number, grouped with `---`
  separator rows; the second version also normalises phone numbers to `+91…`;
- **file split / file combine**: cut a CSV or Excel file into numbered chunks of
  a given size, or concatenate every CSV/XLSX file of a directory into one
  workbook.

Around the tasks sit:

- the GSTIN checksum (a weighted base-36 check digit);
- the API client: one requester per base URL, `Authorization` header handling,
  and endpoint URL formatting;
- the terminal and string helpers the tasks use.

Each module matches one source file. Pure helpers (`gstin.py`, `strings.py`,
`terminal.py`, the URL builders, the dataframe operations) are datatypes and
functions with lemmas. Loops become methods with invariants, proved against
those functions. Task objects and the requester cache are classes whose methods
update their fields. The file system is a `FileSystem` object holding a
directory set and a map from path to content. Every write and `makedirs` a task
performs is stated as its effect on that object. The network is a sequence of
replies, one per request, given to a task as a parameter. Keyboard input is a
sequence of lines, shared by the menu and the tasks' prompts. Dataframes are sequences of rows.

Shared modules:

- `Common`: `Option`/`Result` and the Python exception kinds;
- `Text`: case mapping, `strip`, `int()`, decimal rendering;
- `Paths`: `os.path.basename`, `dirname`, `splitext`, `join`;
- `Disk`: the file system;
- `Frames`: the dataframe operations `duplicated`, `drop_duplicates` and
  `sort_values`;
- `FileClasses`: the extension-to-file-class table.

## Model

| member | source | states |
|---|---|---|
| Terminal.ColourCode | scripts/utils/terminal.py:4-15 | the colour prefix is empty exactly for no colour or a name outside the colour table, and is that name's escape code otherwise |
| Terminal.BoldCode | scripts/utils/terminal.py:16 | the bold prefix is empty exactly when bold is not requested |
| Terminal.FormatText | scripts/utils/terminal.py:14-17 | the formatted text starts with the bold code (empty when not bold) followed by the colour's code (empty for an unknown colour), ends with the reset code, and is exactly as long as the prefixes, the text and the reset together |
| Terminal.FormatTextKeepsInput | scripts/utils/terminal.py:17 | the original text appears unchanged between the prefix and the reset code |
| Terminal.PrefixShape | scripts/utils/terminal.py:15-17 | the prefix is empty exactly when neither bold nor a known colour is asked for; otherwise it starts with ESC, and with the bold code when bold is asked for |
| Terminal.FormatTextInjective | scripts/utils/terminal.py:14-17 | with the same colour and bold setting, two different texts never format to the same string |
| Strings.UpperFrom | scripts/utils/strings.py:15 | the next word starts at the first upper-case ASCII letter at or after the position (or at the end) |
| Strings.UpperFromSkipsLower | scripts/utils/strings.py:15 | every character skipped on the way to the next word start is not an upper-case letter |
| Strings.WordsAreWords | scripts/utils/strings.py:15 | each word found starts with one capital letter and contains no other capital |
| Strings.WordsConcat | scripts/utils/strings.py:15 | the words joined back together are exactly the text from its first capital letter on, so nothing after the first capital is lost |
| Strings.WordsCount | scripts/utils/strings.py:15 | there is one word per upper-case letter of the text |
| Strings.Formatted | scripts/utils/strings.py:16 | the first word is capitalised, every later word is lower-cased, and the word count is unchanged |
| Strings.SentenceEmptyIff | scripts/utils/strings.py:15-17 | the sentence is empty exactly when the identifier contains no capital letter |
| Strings.SentenceStartsWithCapital | scripts/utils/strings.py:15-17 | a non-empty sentence starts with the identifier's first capital letter, unchanged |
| Executor.MenuItems | executor.py:32-33 | one menu line per task, in the order the tasks were loaded |
| Executor.MenuLayout | executor.py:28-35 | the menu has n + 5 lines: three heading lines, then the n task lines, then the "Exit" line numbered n + 1, then a closing line |
| Executor.MenuItemNumber | executor.py:33 | the menu line for the task at position i starts with its number i + 1 followed by ". " |
| Executor.Choice | executor.py:41-45 | a line is accepted exactly when it is an integer k with 1 <= k <= n + 1, and then selects position k - 1 |
| Executor.MenuNumberSelects | executor.py:33-45 | typing the number the menu shows for a task selects exactly that task |
| Executor.FirstChoice | executor.py:38-47 | the choice made is the first acceptable line, and every line before it was rejected; with no acceptable line there is no choice |
| Executor.FirstChoiceAt | executor.py:38-47 | conversely, an acceptable line preceded only by rejected lines is the choice made |
| Executor.GetUserChoice | executor.py:38-47 | the re-prompting loop returns the first acceptable choice and how many lines it consumed; running out of input is `EOFError` |
| Executor.RunTask | executor.py:50-55 | running a task creates it, calls `get_params`, then calls `execute`, for the chosen task |
| Executor.Skip | executor.py:53-54 | after a task reads c lines, the input left is the rest after those c lines, or nothing when fewer remained |
| Executor.ExitEndsSession | executor.py:74-76 | choosing "Exit" shows the menu once and ends the session without running any task |
| Executor.TaskNumberChooses | executor.py:33-45 | a line holding the number the menu shows for task i chooses task i and reads only that line |
| Executor.RunUntilIsPrefix | executor.py:50-55 | a task whose step fails leaves the events of `run_task` up to and including that step: none when creating it fails, creation and `get_params` when `get_params` fails, all three when `execute` fails |
| Executor.SessionAfterChoice | executor.py:50-55 | after choosing task i, the session runs task i on the input after the choice. If the task returns, the session goes on from the lines after those it read. If creating the task fails, the session ends right after the menu. If `get_params` fails, it ends without `execute`. If `execute` fails, it ends after it. Each failure ends the session with that task, the failing step and the failure, since nothing catches it |
| Executor.TaskNumberRunsTask | executor.py:72-77 | typing task i's number runs task i on the lines after it. The three outcomes are the same as in the row above |
| Executor.RunsInOrderAppend | executor.py:53-55 | joining two traces in which each `execute` follows its task's creation and `get_params` gives a trace with the same property |
| Executor.RoundRunsInOrder | executor.py:50-55 | one menu round, whether complete or cut short at any step, keeps creation, `get_params`, `execute` in that order, and so does anything after it that keeps that order |
| Executor.SessionRunsInOrder | executor.py:53-55 | in every session, each `execute` comes right after the same task's creation and `get_params` |
| Executor.SessionLastEvent | executor.py:72-77 | a session never has an empty trace. When no task failed, it ends with the menu shown. When a task failed, it ends with the step that failed: the menu when the task could not be created, otherwise that task's `get_params` or `execute` |
| Executor.FailedStepLast | executor.py:50-55 | a round whose task fails at a step ends with the event of that step, or with the menu when creating the task fails |
| Executor.MenuRound | executor.py:72-77 | one pass of the loop either ends the program with the session's trace and ending, or leaves strictly less input, from which the rest of the session continues |
| Executor.MenuLoop | executor.py:72-77 | the menu loop produces exactly the session's trace and ending for the given input |
| Executor.RunProgram | executor.py:65-77 | with a truthy token, the settings are kept and the session reads all the input. Otherwise, if `generate_token` returns, its token is stored and saved, and the session starts after the lines it read. If it raises or exits, the program ends before any menu |
| ApiCalls.InitialHeaders | scripts/utils/api_calls.py:23-26 | an `Authorization` header holding the token is present exactly when the token is truthy; no other header is set |
| ApiCalls.SimpleRequests.constructor | scripts/utils/api_calls.py:15-26 | a new requester keeps its base URL and starts with the headers for its token |
| ApiCalls.SimpleRequests.SetToken | scripts/utils/api_calls.py:44-51 | `set_token` sets `Authorization` to the token and changes nothing else |
| ApiCalls.SimpleRequests.GetUrl | scripts/utils/api_calls.py:53-63 | the full URL is the base URL followed by the endpoint |
| ApiCalls.SetTokenKeepsOthers | scripts/utils/api_calls.py:44-51 | after `set_token` the header map holds the token, and every other header is as before |
| ApiCalls.RequesterCache.constructor | scripts/utils/api_calls.py:13 | the instance cache starts empty |
| ApiCalls.RequesterCache.GetInstance | scripts/utils/api_calls.py:28-42 | a cached requester for the base URL is returned unchanged, and the token is ignored; otherwise a new requester with that token is cached and returned |
| ApiCalls.ApiService.constructor | scripts/utils/api_calls.py:147 | the service keeps the requester it is given |
| ApiCalls.NewApiService | scripts/utils/api_calls.py:128-147 | an unknown environment is `KeyError` and leaves the cache unchanged; otherwise the service uses the cache's requester for that environment's base URL |
| ApiCalls.SameEnvironmentShares | scripts/utils/api_calls.py:28-42 | two services for one environment share one requester, whose headers come from the first token seen |
| ApiCalls.ApiService.TaxpayerUrl | scripts/utils/api_calls.py:167-177 | the taxpayer lookup goes to the base URL, then the taxpayer endpoint, then the GSTIN |
| ApiCalls.TaxFilingStatusUrlInjective | scripts/utils/api_calls.py:188-198 | two filing-status lookups go to the same URL only for the same GSTIN |
| ApiCalls.RequestUrlsDistinct | scripts/utils/api_calls.py:149-212 | no two kinds of request go to the same URL. OTP, validation and upload differ from each other. The taxpayer, filing-status and filing lookups differ from each other and from those three, whatever the GSTINs and return period |
| ApiCalls.ApiService.TaxFilingUrl | scripts/utils/api_calls.py:200-212 | the filing lookup URL carries the GSTIN and the return period in the two query fields of the filing template |
| ApiCalls.TaxFilingTemplateParse | scripts/utils/api_calls.py:142 | the filing template splits into literal text and exactly two replacement fields, which render back to the template; filling them with `{}` markers gives the endpoint text back |
| ApiCalls.FormatWithFieldsRenders | scripts/utils/api_calls.py:211 | filling a parsed template with its own field markers gives the template text back |
| ApiCalls.FilingEndpointFormat | scripts/utils/api_calls.py:211 | `format` puts the GSTIN into the first field and the period into the second |
| ApiCalls.TaxpayerUrlInjective | scripts/utils/api_calls.py:177 | different GSTINs give different taxpayer URLs |
| TokenGenerator.Classify | scripts/tasks/token_generator_task.py:49-54 | an input line is a resend request exactly when it lower-cases to "resend", an OTP exactly when it is all digits, and invalid otherwise |
| TokenGenerator.OtpInput | scripts/tasks/token_generator_task.py:45-54 | the deciding line lies at or after the read position, and reading resumes after it; running out of lines is `EOFError` |
| TokenGenerator.OtpInputDecides | scripts/tasks/token_generator_task.py:49-52 | the answer is "resend" exactly when the deciding line says so, and otherwise the deciding line itself, all digits |
| TokenGenerator.OtpInputSkipsInvalid | scripts/tasks/token_generator_task.py:47-54 | every line before the deciding one was neither "resend" nor all digits |
| TokenGenerator.GetOtpInput | scripts/tasks/token_generator_task.py:45-54 | the prompting loop returns exactly the answer and position the specification gives |
| TokenGenerator.BackoffValues | scripts/tasks/token_generator_task.py:65-69 | the sleeps of a run are 2, 4 and 8 seconds in that order, one per failed attempt |
| TokenGenerator.StoredToken | scripts/tasks/token_generator_task.py:59-63 | a token is stored exactly when the validation reply carries a truthy token, and it is that token |
| TokenGenerator.Round | scripts/tasks/token_generator_task.py:25-31 | one pass of the loop makes one or two requests, and a resend consumes at least one input line |
| TokenGenerator.RunRound | scripts/tasks/token_generator_task.py:25-31 | the `try` block computes exactly that pass |
| TokenGenerator.Run | scripts/tasks/token_generator_task.py:23-35 | attempts never exceed three; the run is exhausted exactly when they reach three; a validated run used fewer |
| TokenGenerator.RoundFailures | scripts/tasks/token_generator_task.py:25-34 | exactly one request of a pass failed when the pass ended in a failed request, and none failed otherwise |
| TokenGenerator.RunCountsFailures | scripts/tasks/token_generator_task.py:32-34 | the attempt counter goes up by exactly the number of failed requests; a resend costs no attempt |
| TokenGenerator.ExitCode | scripts/tasks/token_generator_task.py:37-39 | the task exits, with status 1, exactly when the attempts were exhausted |
| TokenGenerator.RunEnds | scripts/tasks/token_generator_task.py:23-39 | from the start, attempts equal failed requests and stay at most three; exit status 1 exactly at three; success only below three |
| TokenGenerator.TokenGeneratorTask.constructor | scripts/tasks/token_generator_task.py:11-13 | the task's requester is for the QA base URL and has no `Authorization` header |
| TokenGenerator.TokenGeneratorTask.GetParams | scripts/tasks/token_generator_task.py:15-19 | `get_params` stores the phone number typed and the sign-in OTP and validation endpoints |
| TokenGenerator.TokenGeneratorTask.Execute | scripts/tasks/token_generator_task.py:21-39 | the outcome, attempt count, requests and lines read equal the run from zero attempts, and the sleeps are the backoff for that many failures |
| Gstin.SymbolValue | scripts/utils/gstin.py:25-29 | a character has a value exactly when it is in 0-9A-Z; the value is below 36, and the symbol for that value is the character |
| Gstin.CheckSymbol | scripts/utils/gstin.py:34-35 | the check symbol is in 0-9A-Z and its value brings the weighted total to a multiple of 36 |
| Gstin.CalculateCheckDigit | scripts/utils/gstin.py:6-35 | `ValueError` exactly when some character is outside 0-9A-Z; otherwise the symbol completing the right-to-left weighted total (weights 2, 1, 2, …) to a multiple of 36 |
| Gstin.TotalSuffix | scripts/utils/gstin.py:28-32 | scanning one more character adds its folded product with the weight for its distance from the right end |
| Gstin.TotalDropFirst | scripts/utils/gstin.py:28-32 | the weighted total over the last k characters does not depend on any character before them |
| Gstin.ValidateGstin | scripts/utils/gstin.py:38-67 | a non-string or a stripped value not matching the GSTIN pattern is `ValidationError`; a lower-case or non-ASCII character in the first 14 is `ValueError`; otherwise the stripped value is returned exactly when its 15th character is the check digit |
| Gstin.IsGstinValid | scripts/utils/gstin.py:70-82 | `True` exactly when the stripped value is an accepted GSTIN; the one error that escapes is the `ValueError` of a pattern match with characters outside 0-9A-Z in the first 14 |
| Gstin.AcceptedMeansCheckSymbol | scripts/utils/gstin.py:61-65 | for a pattern match over 0-9A-Z, the GSTIN is accepted exactly when its last character is the computed check digit |
| Gstin.SameResidue | scripts/utils/gstin.py:34-35 | at most one value below 36 brings a total to a multiple of 36, so the check digit is unique |
| Frames.SelectMembers | scripts/tasks/preregister_file_task.py:61-72 | `duplicated(keep=False)` keeps a row exactly when its key occurs at least twice, and `drop_duplicates(keep=False)` exactly when it occurs once; an empty cell counts as equal to every other empty cell |
| Frames.SelectAppend | scripts/tasks/preregister_file_task.py:71 | filtering a table row by row distributes over appending rows |
| Frames.OccurrencesSelect | scripts/tasks/preregister_file_task.py:71-72 | filtering never makes a key occur more often, in any column |
| Frames.TwoRowsOccurTwice | scripts/tasks/preregister_file_task.py:61 | two different positions sharing a key make that key occur at least twice |
| Frames.DistinctOccursAtMostOnce | scripts/tasks/preregister_file_task.py:71-72 | in a table with distinct keys, every key occurs at most once |
| Frames.DropDuplicatesDistinct | scripts/tasks/preregister_file_task.py:71-72 | after `drop_duplicates(keep=False)` no two rows share the key |
| Frames.SelectKeepsDistinct | scripts/tasks/preregister_file_task.py:72 | filtering a table whose keys in some column are distinct keeps them distinct |
| Frames.StrLeTotal | scripts/tasks/preregister_file_task.py:76 | string order is total |
| Frames.StrLeTransitive | scripts/tasks/preregister_file_task.py:76 | string order is transitive |
| Frames.StrLeAntisymmetric | scripts/tasks/preregister_file_task.py:76 | string order is antisymmetric |
| Frames.CellLeTotal | scripts/tasks/preregister_file_task.py:76 | the sort order on cells (strings in order, an empty cell after every value) is total |
| Frames.CellLeTransitive | scripts/tasks/preregister_file_task.py:76 | the sort order on cells is transitive |
| Frames.CellLeAntisymmetric | scripts/tasks/preregister_file_task.py:76 | the sort order on cells is antisymmetric |
| Frames.SortedMissingLast | scripts/tasks/preregister_file_task.py:76 | in a sorted table, every row after one with an empty key also has an empty key |
| Frames.SortByKeySortedPermutation | scripts/tasks/preregister_file_task.py:76 | `sort_values` returns the rows sorted by the key column, empty keys last, as a permutation of the input |
| PreRegister.Project | scripts/tasks/preregister_file_task.py:62 | projecting a row keeps its gstin, phone number, name and email and drops every other column |
| PreRegister.ProjectAll | scripts/tasks/preregister_file_task.py:62 | projecting a table projects each row, in order |
| PreRegister.GroupedExtend | scripts/tasks/preregister_file_task.py:81-85 | one more row adds a separator if its key differs from the previous row's (an empty key differs from every key, itself included), then the row itself |
| PreRegister.CreateDuplicateReport | scripts/tasks/preregister_file_task.py:75-90 | the report rows are the input sorted by key, as a permutation, with separators exactly between records of different key or with an empty key; an empty input gives an empty report with the default columns |
| PreRegister.GroupedRecords | scripts/tasks/preregister_file_task.py:81-85 | removing the separators from a grouped report gives back the sorted rows |
| PreRegister.GroupedWellSeparated | scripts/tasks/preregister_file_task.py:82-84 | separators never come first or last, never come in pairs, and stand exactly between neighbours that do not share a present key, so two rows with an empty key are always separated |
| PreRegister.SeparatorsCountGroups | scripts/tasks/preregister_file_task.py:82-83 | a sorted non-empty table's report has one separator fewer than it has groups: one per distinct present key plus one per row with an empty key |
| PreRegister.NewGroupIffGap | scripts/tasks/preregister_file_task.py:82-83 | in a sorted table, the last row is preceded by a separator exactly when its key is empty or was not seen before |
| PreRegister.GroupCountSnoc | scripts/tasks/preregister_file_task.py:82-83 | one more row adds a group exactly when its key is empty or new |
| PreRegister.KeySetSnoc | scripts/tasks/preregister_file_task.py:82-83 | the present keys of a table with one more row are the earlier ones plus that row's key, if present |
| PreRegister.CleanFile | scripts/tasks/preregister_file_task.py:54-73 | the unique table drops GSTIN duplicates, then phone duplicates; each duplicate report groups the projected rows whose key repeats |
| PreRegister.SelectSubsequence | scripts/tasks/preregister_file_task.py:71-72 | filtering keeps the rows' relative order |
| PreRegister.UniqueRowsProperties | scripts/tasks/preregister_file_task.py:71-72 | the unique table has distinct GSTINs and distinct phone numbers, keeps the input order, and holds a row exactly when it survives both filters |
| PreRegister.ReportRecords | scripts/tasks/preregister_file_task.py:75-90 | a report's records are a sorted permutation of its input, well separated, and the report is the empty one exactly for an empty input |
| PreRegister.DuplicateReportContents | scripts/tasks/preregister_file_task.py:61-69 | a projected row is in a duplicate report exactly when some input row with that projection has a key occurring at least twice |
| PreRegister.ProjectedDuplicates | scripts/tasks/preregister_file_task.py:61-62 | a projected row is among the projected duplicates exactly when an input row with that projection is a duplicate |
| PreRegister.CleanFileCoversInput | scripts/tasks/preregister_file_task.py:54-73 | every input row lands in the unique table or in at least one duplicate report; no row is lost |
| PreRegister.UniqueAndPhoneReportOverlap | scripts/tasks/preregister_file_task.py:65-72 | a row can be both in the unique table and in the phone-number duplicate report, because the phone filter runs after the GSTIN filter |
| PreRegister.MissingKeysReportedApart | scripts/tasks/preregister_file_task.py:61-84 | two rows with an empty gstin are gstin duplicates of each other, yet their report keeps them apart with a separator |
| PreRegister.OutputFilesBesideInput | scripts/tasks/preregister_file_task.py:30-34 | the three outputs lie in the input's directory, named after its stem with their three suffixes |
| PreRegisterV2.UpdatePhoneNumber | scripts/tasks/preregister_file_task_2.py:91-98 | 12 characters starting "91" gain a "+"; 10 characters not starting "+91" gain "+91"; anything else is unchanged |
| PreRegisterV2.UpdatedNumberShape | scripts/tasks/preregister_file_task_2.py:94-97 | a changed number has 13 characters, starts with "+91" and ends with the original's last ten characters |
| PreRegisterV2.UpdatePhoneNumberIdempotent | scripts/tasks/preregister_file_task_2.py:94-98 | normalising a number twice gives the same as once |
| PreRegisterV2.NormalizedPhonesIdempotent | scripts/tasks/preregister_file_task_2.py:86-88 | normalising the whole phone column twice gives the same as once; an empty cell stays empty |
| PreRegisterV2.NormalizePhoneColumn | scripts/tasks/preregister_file_task_2.py:86-88 | the column is overwritten in place with every number normalised, empty cells left empty, and every other column unchanged |
| PreRegisterV2.DuplicateReportV2 | scripts/tasks/preregister_file_task_2.py:100-112 | the report has the projected columns, ends with one separator row, and all other rows are records |
| PreRegisterV2.SortProject | scripts/tasks/preregister_file_task_2.py:104-105 | sorting then projecting equals projecting then sorting |
| PreRegisterV2.DuplicateReportV2Contents | scripts/tasks/preregister_file_task_2.py:103-112 | the records are sorted by key, are a permutation of the projected duplicates, and include a row exactly when its key repeats |
| PreRegisterV2.CleanFileV2 | scripts/tasks/preregister_file_task_2.py:64-67 | the "unique" table is the input table itself, and the two reports are the GSTIN and phone-number duplicate reports |
| PreRegisterV2.InputDirBesideInput | scripts/tasks/preregister_file_task_2.py:35-36 | the work directory sits in the input's directory and is named after the input's stem |
| PreRegisterV2.WorkDirsAreChildren | scripts/tasks/preregister_file_task_2.py:46-49 | the temp, processed, failed and result directories are direct children of the work directory, with those names |
| PreRegisterV2.ReplaceAllLength | scripts/tasks/preregister_file_task_2.py:160 | replacing a pattern by one of equal length keeps the length |
| PreRegisterV2.ReplaceAllChangesIff | scripts/tasks/preregister_file_task_2.py:160 | `replace` changes the text exactly when the pattern occurs in it |
| PreRegisterV2.ReplaceAllAppend | scripts/tasks/preregister_file_task_2.py:160 | `replace` never matches across a point whose next character is not in the pattern, so text on either side is rewritten separately |
| PreRegisterV2.ReplaceAllAroundSeparator | scripts/tasks/preregister_file_task_2.py:160 | a separator that is not in the pattern is kept, and each side of it is rewritten on its own |
| PreRegisterV2.DownloadPathRewritesDirectories | scripts/tasks/preregister_file_task_2.py:160 | the download path rewrites each slash-separated part of the uploaded path on its own, so a directory named "unique" becomes "output" too, not just the file name |
| PreRegisterV2.PreRegisterTaskV2.GetParams | scripts/tasks/preregister_file_task_2.py:28-36 | the first input line naming an existing file is taken; the input ending first is `EOFError`; the base name and input directory come from the chosen path |
| PreRegisterV2.PreRegisterTaskV2.PrepareDirectories | scripts/tasks/preregister_file_task_2.py:44-51 | the four work directories are the joined paths, and they are created in the order temp, processed, failed, result |
| TaxFilingStatus.DefaultFiling | scripts/tasks/tax_filing_status.py:186-188 | the placeholder filing is for the requested period, with "-" for both GSTR-1 and GSTR-3B |
| TaxFilingStatus.GetFilingData | scripts/tasks/tax_filing_status.py:180-188 | a success is a filing for the requested period, either one of the filings or the placeholder; a failure is `KeyError` |
| TaxFilingStatus.FilingFirstMatch | scripts/tasks/tax_filing_status.py:186 | when every earlier filing has another period, a filing for the period is returned, and a filing without `return_period` raises `KeyError` |
| TaxFilingStatus.FilingDefault | scripts/tasks/tax_filing_status.py:186-188 | when every filing has another period, the placeholder is returned |
| TaxFilingStatus.GetRowData | scripts/tasks/tax_filing_status.py:160-178 | the row succeeds exactly when the reply has every key the row reads; its period is the requested one, and its fields are copied from the reply |
| TaxFilingStatus.GstinColumnFirst | scripts/tasks/tax_filing_status.py:124 | the column chosen is the first one whose name lower-cases to "gstin" |
| TaxFilingStatus.GetGstins | scripts/tasks/tax_filing_status.py:117-128 | without a GSTIN column the result is `ValidationError`; otherwise there is one GSTIN per row |
| TaxFilingStatus.GetGstinsColumn | scripts/tasks/tax_filing_status.py:124-128 | an error happens exactly when no column name lower-cases to "gstin"; otherwise the first such column is read cell by cell |
| TaxFilingStatus.OutputFilePathParts | scripts/tasks/tax_filing_status.py:130-138 | the output lies in the `output` subdirectory and is named after the input's stem plus "_output" and its extension |
| TaxFilingStatus.InputFilesSnoc | scripts/tasks/tax_filing_status.py:105-114 | one more listed name appends the file it yields, if any, after the files kept so far |
| TaxFilingStatus.InputFilesMembers | scripts/tasks/tax_filing_status.py:104-114 | an input file is produced exactly when some listed entry has a CSV or XLSX extension and is a regular file |
| TaxFilingStatus.OutputRowsInOrder | scripts/tasks/tax_filing_status.py:148-155 | all rows succeed exactly when every reply gives a row; then row i comes from reply i |
| TaxFilingStatus.SheetOf | scripts/tasks/tax_filing_status.py:157-158 | with no rows the written sheet is empty, without even a column line (a DataFrame of an empty list has no columns); otherwise it has the output columns and one line per row |
| TaxFilingStatus.CollectRows | scripts/tasks/tax_filing_status.py:147-155 | the loop collects exactly the rows the specification gives, or the first error |
| TaxFilingStatus.FileRows | scripts/tasks/tax_filing_status.py:145-155 | one file's rows are the replies for its GSTINs, in order |
| TaxFilingStatus.TaxFilingStatusTask.PrepareOutputDirectory | scripts/tasks/tax_filing_status.py:77-82 | the output directory is the `output` subdirectory, created if missing, and no file changes |
| TaxFilingStatus.TaxFilingStatusTask.AdmitEntry | scripts/tasks/tax_filing_status.py:106-114 | one loop pass keeps an entry exactly as the admission rule does: a supported extension and an existing file, read by the extension's class |
| TaxFilingStatus.TaxFilingStatusTask.GetInputFiles | scripts/tasks/tax_filing_status.py:93-115 | a path that is not a directory gives no files; otherwise the result is exactly the admitted entries, in listing order |
| TaxFilingStatus.TaxFilingStatusTask.GenerateOutputFile | scripts/tasks/tax_filing_status.py:140-158 | the rows are this file's outcome; on success its sheet is written at the output path, and on an error nothing is written |
| TaxPayerDetails.ExtractTaxpayerDetails | scripts/tasks/tax_payer_details_task.py:111-138 | the extracted record has exactly the output fields as keys, each holding the reply's value for it |
| TaxPayerDetails.ExtractedIgnoresOtherKeys | scripts/tasks/tax_payer_details_task.py:111-138 | reply keys outside the output fields do not affect the extracted record |
| TaxPayerDetails.Put | scripts/tasks/tax_payer_details_task.py:97 | storing a record sets that GSTIN's entry and leaves every other entry as it was |
| TaxPayerDetails.GetTaxpayerDetails | scripts/tasks/tax_payer_details_task.py:87-109 | the loop builds exactly the accumulated details of the replies |
| TaxPayerDetails.AccumulatedKeys | scripts/tasks/tax_payer_details_task.py:94-97 | a GSTIN has details exactly when some reply for it was accepted |
| TaxPayerDetails.AccumulatedLastWins | scripts/tasks/tax_payer_details_task.py:89-97 | for a GSTIN listed twice, the last accepted reply's details are kept |
| TaxPayerDetails.AccumulatedKeysFromInput | scripts/tasks/tax_payer_details_task.py:89-97 | every GSTIN with details was in the input list |
| TaxPayerDetails.ReaderFor | scripts/tasks/tax_payer_details_task.py:70-76 | `.csv` is read as CSV and `.xlsx`/`.xls` as Excel; any other extension has no reader |
| TaxPayerDetails.ReadGstins | scripts/tasks/tax_payer_details_task.py:67-85 | an unsupported extension or a read error gives an empty list; otherwise the GSTIN column is returned |
| TaxPayerDetails.OutputFilePathSibling | scripts/tasks/tax_payer_details_task.py:140-147 | the output workbook lies beside the input and is named `<stem>_output_<timestamp>.xlsx` |
| TaxPayerDetails.SheetOf | scripts/tasks/tax_payer_details_task.py:149-154 | the sheet has the output fields as columns and one row per GSTIN with details |
| TaxPayerDetails.TaxPayerDetailsTask.Execute | scripts/tasks/tax_payer_details_task.py:49-65 | with no GSTINs nothing is set or written; otherwise the output path is set, and the sheet is written exactly when some details were found |
| FileClasses.Extension | scripts/tasks/file_split_task.py:26 | the extension holds no dot |
| FileClasses.ExtensionAfterLastDot | scripts/tasks/file_combine_task.py:65 | the extension of `stem.e` is `e`, lower-cased |
| FileClasses.FileClass | scripts/tasks/file_split_task.py:13-17 | only "csv" and "xlsx" have a file class, and they have CSV and Excel respectively |
| FileCombine.KeptMembers | scripts/tasks/file_combine_task.py:64-67 | a path is combined exactly when its extension has a file class |
| FileCombine.CombinedFails | scripts/tasks/file_combine_task.py:61-72 | combining fails with `ValueError` exactly when no path has a supported extension |
| FileCombine.ConcatRecordsAppend | scripts/tasks/file_combine_task.py:71 | concatenation distributes over appending tables |
| FileCombine.ConcatRowCount | scripts/tasks/file_combine_task.py:71 | the combined table has as many rows as the inputs together |
| FileCombine.AddColumnsMembers | scripts/tasks/file_combine_task.py:71 | adding columns keeps the existing ones first and yields exactly the old and new names |
| FileCombine.ConcatColumns | scripts/tasks/file_combine_task.py:71 | a column is in the combined table exactly when some input table has it |
| FileCombine.OutputFilePath | scripts/tasks/file_combine_task.py:40-43 | the output path ends in ".xlsx" |
| FileCombine.OutputFilePathShape | scripts/tasks/file_combine_task.py:40-43 | the output is named `output_<timestamp>.xlsx` and, for a canonical input directory, lies in that directory; its extension is one the task itself reads |
| FileCombine.FilePathsMembers | scripts/tasks/file_combine_task.py:52-59 | a path is listed exactly when it is an existing file named by some directory entry joined to the directory |
| FileCombine.FileCombineTask.constructor | scripts/tasks/file_combine_task.py:23-27 | a new task has no input directory and no output file yet |
| FileCombine.FileCombineTask.GetParams | scripts/tasks/file_combine_task.py:29-43 | a path that is not a directory is `ValueError` and leaves the output file unset; otherwise both are set |
| FileCombine.FileCombineTask.GetFilePaths | scripts/tasks/file_combine_task.py:52-59 | the loop returns exactly those paths |
| FileCombine.FileCombineTask.CombineFiles | scripts/tasks/file_combine_task.py:61-72 | the loop reads the supported files in order and concatenates them, or reports `ValueError` when there are none |
| FileCombine.FileCombineTask.Execute | scripts/tasks/file_combine_task.py:45-50 | the combined sheet is written to the output file exactly when combining succeeds, and nothing else changes |
| FileSplit.FileSplitTask.constructor | scripts/tasks/file_split_task.py:19-21 | a new task has no file, output directory or chunk size yet |
| FileSplit.FileSplitTask.GetParams | scripts/tasks/file_split_task.py:23-33 | an unsupported extension is `ValueError` and changes nothing; otherwise the file class and output directory are set, and the chunk size is parsed or is `ValueError` |
| FileSplit.FileSplitTask.Execute | scripts/tasks/file_split_task.py:35-37 | with all parameters set, the chosen file is split as the CSV or Excel split does; a parameter never set is an error that changes nothing |
| CsvFiles.ChunkCount | scripts/files/csv.py:17 | there is at least one chunk; a table with no rows gives exactly one, empty, chunk |
| CsvFiles.ChunkCountBounds | scripts/files/csv.py:17 | there are just enough chunks to hold every row, with no empty last chunk when there are rows |
| CsvFiles.ChunkStart | scripts/files/csv.py:17 | every chunk starts inside the table, or at its start when there are no rows |
| CsvFiles.ChunkRows | scripts/files/csv.py:17 | chunk k is the run of at most chunk-size consecutive rows starting at row k times chunk-size; it is non-empty when the table has rows |
| CsvFiles.ChunksUpToPrefix | scripts/files/csv.py:17 | the first k chunks together are exactly the first k times chunk-size rows, or all rows |
| CsvFiles.ChunksCoverRows | scripts/files/csv.py:17 | all chunks together are exactly the rows, in order |
| CsvFiles.DoubleQuotesReadBack | scripts/files/csv.py:20 | doubling the quote characters inside a field loses nothing: reading `""` back as `"` gives the field |
| CsvFiles.QuoteFieldReadsBack | scripts/files/csv.py:20 | `to_csv` writes a field as it is unless it holds a comma, a quote or a line break; then it is wrapped in quotes and reads back as the field |
| CsvFiles.HeadersAgree | scripts/files/csv.py:20-30 | the column names joined by commas (line 30) equal the header line `to_csv` writes (line 20) exactly when no name needs quoting and the header is not a single empty name |
| CsvFiles.EveryChunkHasHeader | scripts/files/csv.py:19-30 | when no column name needs quoting, every chunk file is the header line followed by the chunk's rows; a later chunk starts with the same header as the first exactly then |
| CsvFiles.QuotedColumnHeaders | scripts/files/csv.py:20-30 | a column named `a,b` is written `"a,b"` in the first chunk's header and `a,b` in a later chunk's |
| CsvFiles.HeaderOnlyTable | scripts/files/csv.py:17-21 | a table with no rows is still written, as `chunk1.csv` holding the header line alone |
| CsvFiles.CsvWrites | scripts/files/csv.py:16-32 | one file per chunk, the k-th named `chunk<k+1>.csv` in the output directory |
| CsvFiles.ChunkNamesDistinct | scripts/files/csv.py:18 | different chunk numbers give different file names |
| CsvFiles.CsvWritesDistinct | scripts/files/csv.py:16-32 | no two chunks are written to the same path |
| CsvFiles.WriteChunk | scripts/files/csv.py:19-30 | writing a chunk stores the chunk's text at the chunk's path: the quoted header for the first chunk, the joined column names for the others, then the rows |
| CsvFiles.CsvFile.constructor | scripts/files/base.py:7-9 | a CSV file object keeps its path |
| CsvFiles.CsvFile.Split | scripts/files/csv.py:11-32 | the output directory is created if missing; a chunk size below 1 is `ValueError`; otherwise the file system gains exactly the chunk files |
| ExcelFiles.RangeLength | scripts/files/excel.py:22 | `range` yields exactly as many values as fit before the stop, in either direction |
| ExcelFiles.PyRange | scripts/files/excel.py:22 | the k-th value of `range` is the start plus k steps, for as many values as `range` yields |
| ExcelFiles.PyRangeMembers | scripts/files/excel.py:22 | with a positive step, a value is in the range exactly when it lies between start and stop on the step grid |
| ExcelFiles.FloorDiv | scripts/files/excel.py:26 | `//` rounds toward negative infinity |
| ExcelFiles.MaxRow | scripts/files/excel.py:19 | the sheet's last row number is at least 1 and at least the number of rows |
| ExcelFiles.Width | scripts/files/excel.py:20-24 | `max_column` is at least 1 and at least every row's length |
| ExcelFiles.RowCells | scripts/files/excel.py:20-24 | a row read from the sheet has one cell per column; a cell the row lacks, or any cell of a row past the last, reads as empty |
| ExcelFiles.SheetSlice | scripts/files/excel.py:23 | `sheet[i:j]` succeeds exactly when both bounds are positive; a bound of 0 is `IndexError` and a negative one `ValueError`; it holds rows i to j, both included, or none when j < i |
| ExcelFiles.ChunkWrites | scripts/files/excel.py:22-27 | chunks are written in start order, each as the row-1 headings over its slice, up to the first slice that fails; that failure is the outcome, otherwise every start gets its workbook |
| ExcelFiles.ExcelSplitOutcome | scripts/files/excel.py:19-27 | the split fails exactly when the chunk size is -2 or less and the sheet has one row: `IndexError` for -2, `ValueError` below, with nothing written; otherwise one workbook per start row |
| ExcelFiles.ChunkRows | scripts/files/excel.py:22-27 | with a positive chunk size s, the k-th workbook holds the headings and the s + 1 rows from row 2 + k*s on, both ends included |
| ExcelFiles.ChunksOverlap | scripts/files/excel.py:22-27 | with a positive chunk size, the last row of each workbook is the first data row of the next, so consecutive chunks overlap by one row |
| ExcelFiles.BackwardChunk | scripts/files/excel.py:22-27 | with chunk size -1, a one-row sheet gives one workbook, `chunk-1.xlsx`, holding only the headings |
| ExcelFiles.ChunkStartsPositive | scripts/files/excel.py:19-22 | with a positive chunk size, chunks start at rows 2, 2 + s, 2 + 2s, … below the last row, and there are none when the sheet has at most two rows |
| ExcelFiles.ChunkStartsNegative | scripts/files/excel.py:22 | with a negative chunk size, the only chunk starts at row 2, and only for a sheet with one row |
| ExcelFiles.ChunkNumbering | scripts/files/excel.py:22-26 | chunk files are numbered from 3 for chunk size 1, from 2 for size 2, and from 1 otherwise |
| ExcelFiles.ChunkNameInjective | scripts/files/excel.py:26 | different chunk numbers give different workbook names |
| ExcelFiles.ExcelWritesDistinct | scripts/files/excel.py:22-27 | no two chunks are written to the same path |
| ExcelFiles.ExcelFile.constructor | scripts/files/base.py:7-9 | an Excel file object keeps its path |
| ExcelFiles.ExcelFile.Split | scripts/files/excel.py:12-27 | the output directory is created if missing; a chunk size of 0 is `ValueError`; otherwise the outcome is the split's outcome, and the file system gains exactly the workbooks written before it ends |
| Text.LowerNormalises | scripts/tasks/file_split_task.py:26 | lower-casing leaves no ASCII capital and applying it again changes nothing. It changes a string exactly when the string holds an ASCII capital |
| Text.UpperNormalises | scripts/tasks/tax_filing_status.py:107 | upper-casing leaves no ASCII lower-case letter and no long s (U+017F), and applying it again changes nothing |
| Text.LowerOfUpper | scripts/tasks/tax_filing_status.py:107 | upper-casing then lower-casing equals lower-casing alone exactly when the string holds no long s |
| Text.LastSegment | scripts/tasks/file_split_task.py:26 | the last piece of a split is a suffix of the text, contains no separator, and follows a separator unless it is the whole text |
| Text.StripUnchanged | scripts/utils/gstin.py:55 | stripping a text that neither starts nor ends with whitespace leaves it unchanged |
| Text.NatToString | scripts/files/csv.py:18 | a number renders as a non-empty string of decimal digits |
| Text.NatToStringValue | scripts/files/csv.py:18 | the rendered digits are well formed and denote the number itself |
| Text.ParseNatToString | executor.py:41 | `int()` reads a rendered number back as that number |
| Paths.Basename | scripts/tasks/preregister_file_task.py:30 | the base name is a slash-free suffix of the path, following its last slash |
| Paths.SplitextParts | scripts/tasks/preregister_file_task.py:32 | stem and extension concatenate to the path, and the extension is empty or starts with a dot |
| Paths.StemNonEmpty | scripts/tasks/preregister_file_task_2.py:36 | a path with a base name has a non-empty stem |
| Paths.BasenameOfJoin | scripts/tasks/file_combine_task.py:43 | joining a plain name to a directory gives a path whose base name is that name |
| Paths.DirnameOfJoin | scripts/tasks/tax_payer_details_task.py:145-146 | joining a plain name to a canonical directory gives a path whose directory is that directory |
| Paths.SiblingPath | scripts/tasks/tax_payer_details_task.py:145-146 | a name joined to a path's directory lies beside that path, under that name |
| Disk.FileSystem.MakeDirsIfMissing | scripts/utils/files.py:4-15 | a missing directory is added, an existing path leaves the directories as they were, and files never change |
| Disk.FileSystem.Write | scripts/files/csv.py:20 | a write stores the content at the path, replacing any earlier content, and leaves the directories unchanged |
| Disk.AfterMakeDirsEffect | scripts/tasks/preregister_file_task_2.py:50-51 | after creating a list of directories, each exists, and nothing else was added |
| Disk.ApplyWritesEffect | scripts/files/excel.py:22-27 | after writes to distinct paths, each path holds its own content and every other file is unchanged |

## Left out

- `CsvFile` and `ExcelFile` do not define the abstract `read` of `BaseFile`, an abstract base class (`scripts/files/base.py:4-19`). So `CsvFile(...)` and `ExcelFile(...)` raise `TypeError` as written, at `scripts/tasks/file_split_task.py:31`, `scripts/tasks/file_combine_task.py:68`, `scripts/tasks/tax_filing_status.py:113` and `scripts/tasks/preregister_file_task_2.py:66`. They also use `self.filepath`, although `BaseFile` stores `self.file_path`. FileSplit.FileSplitTask.GetParams, FileSplit.FileSplitTask.Execute, FileCombine.FileCombineTask.CombineFiles, TaxFilingStatus.TaxFilingStatusTask.AdmitEntry and the CSV and Excel split members model the evidently intended behaviour: each class keeps the stored path and gets the parsed rows as a parameter.
- The second pre-registration task has several defects (`scripts/tasks/preregister_file_task_2.py`). `create_temp_files` uses an undefined `base_name` (line 57). `process_input_files` uses undefined `files` and `file_path` (lines 72-81) and is never called from `execute`; it is not modelled. `save_df_to_excel` (lines 84-89), which `create_temp_files` calls at line 62, names the unimported `PreRegisterFileProcessingTask` at line 87, so its phone update (lines 86-88) raises `NameError` as written. PreRegisterV2.NormalizePhoneColumn models that update as evidently intended: `update_phone_number` applied to each cell.
- `get_clean_input` is imported from `scripts/utils/terminal.py` but is not defined there. `ApiConstants`, imported by the tasks, does not exist either. The model uses the line as read and the constant values given in `api_calls.py`.
- `COLOUR_RED`, used by the tasks, is undefined. Printing is not modelled.
- Executor.RunProgram: models `main` from its token check on, as evidently intended. As written, `main` fails before that check. `load_tasks` imports task modules that import the missing `get_clean_input` and `ApiConstants`. `print_heading` passes `color=` (`executor.py:62`), a keyword `format_text` (`scripts/utils/terminal.py:14`) does not accept. `TaxFilingStatusTask` defines no `description` (`scripts/tasks/tax_filing_status.py:20`), so `display_menu` (`executor.py:33`) raises `AttributeError` once that task is loaded; the model's menu takes every task's description as given.
- Executor.Session: like Executor.RunProgram, assumes every task has a `description`, which `TaxFilingStatusTask` lacks. What a task does with standard input is a parameter (`Behaviour`). It gives the number of lines the task's prompts read, and whether creating the task, `get_params` or `execute` raised or called `exit`. The tasks' own prompt sequences are modelled in their modules but not wired in here. A count past the end of the input is read as all of it. `generate_token` is a parameter of the same kind (`TokenRun`).
- `validate_otp` calls `response.get` on the response object (`token_generator_task.py:59`). The model reads the token from the reply's JSON body.
- The first pre-registration task calls `SimpleRequests.get_instance(token)` without a base URL (`preregister_file_task.py:16`). It builds no requester in the model.
- HTTP verbs, retries inside `requests`, status handling and the pre-registration upload/process/download flows are not modelled. Each reply is a parameter.
- Settings files, `config.py` and `date_time.py` are not modelled. The return period arrives at the tax-filing-status task already converted.
- openpyxl and pandas internals are not modelled. Parsed rows and columns are parameters, and reading a file either gives rows or an error. Worksheet slicing is modelled by ExcelFiles.SheetSlice; its one-row case `sheet[i:i]`, which openpyxl returns as a row rather than a tuple of rows, is not modelled, since `split` never asks for it (the chunk size is never 0 there).
- Cells are text. A cell with no value is read as empty text in an Excel chunk, and as a missing cell (`NaN`) in the pre-registration tables. Numeric columns, where pandas would store a float, are not modelled.
- PreRegisterV2.NormalizePhoneColumn: leaves an empty phone cell empty. As written, `astype("string")` turns it into `<NA>`, a value `update_phone_number` is not written to handle; the model keeps the cell empty.
- Case mapping covers ASCII letters, plus U+017F (long s), which upper-cases to 'S'. Other non-ASCII characters are left unchanged. For the fixed extensions and keywords the source compares against, this gives the same verdicts as Python's full mapping.
- `load_tasks` discovers task classes by reflection. The model receives the task list as a sequence.
- `print`, spinners, `text2art` banners and the duplicate `scripts/executor.py` entry point are not modelled.
- `str.format` is modelled only for plain `{}` fields, the only kind the endpoints use.
- The `SimpleRequests.token` class attribute is modelled as the token the task returns.
- `time.sleep` is modelled as the list of sleep durations. `exit(1)` is modelled as the exit status of an exhausted run.
- The OTP and menu prompts read from a finite sequence of lines. Running out of lines is `EOFError`.
- `makedirs` records only the requested directory, not its missing parents.
- FileCombine.FileCombineTask.Execute: requires that the input directory and output file are set. This holds at its only call: `execute` runs only after `get_params` returns, and `get_params` either sets both fields or raises `ValueError`, which ends the program.
- TaxFilingStatus.FileRows: requires one reply per GSTIN. In the source, each request is made live, and the network is not modelled.
- TaxFilingStatus.TaxFilingStatusTask.GenerateOutputFile: requires one reply per GSTIN, for the same reason.
- TaxPayerDetails.TaxPayerDetailsTask.Execute: requires one reply per GSTIN, for the same reason.
- TaxFilingStatus.TaxFilingStatusTask: the class starts from the state after `get_params`. As written, its constructor always raises `TypeError`: `ApiService(token=...)` (`scripts/tasks/tax_filing_status.py:39`) omits the required `environment` (`scripts/utils/api_calls.py:145`). It also passes the token as the base URL to `SimpleRequests.get_instance` (`scripts/tasks/tax_filing_status.py:35`). The menu model represents a constructor that raises as `Failed(Creation, ...)`, which ends the session right after the menu. The same case covers the second pre-registration task and the taxpayer-details task, whose constructors raise `KeyError` at `scripts/utils/api_calls.py:146` for an unknown environment.
- CsvFiles.CsvLine: each cell is given as the text of its value, which `to_csv` then quotes as needed. `read_csv`'s type inference, the renaming of duplicate column names and missing values (`NaN`, written as an empty field) are not modelled. Line endings are `\n`, the POSIX `os.linesep`.
