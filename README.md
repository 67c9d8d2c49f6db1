# Keyword line filter: a Dafny model

This project models the core of the text-filter tool. The tool takes a list of text files and a keyword, and keeps every line of every file that contains the keyword, ignoring case. It writes those lines to `output/result_<DDMMYYYY>@<keyword>.txt` and appends a line to `logs.txt`.

The model covers three pieces of the source:

- `process_files` and `filter_lines_by_keyword` (`core/engine.py`), which:
  - validate the request;
  - strip the keyword;
  - report progress;
  - poll for cancellation;
  - load and filter each file in order;
  - stop at the first failure;
  - report completion;
  - call the writer when there are matches.
- `load_lines` (`utils/file_loader.py`), which tries five encodings in order. A decode error moves on to the next encoding; any other error is raised at once.
- `write_result_file` and `_log_operation` (`utils/file_writer.py`), which:
  - create `output`;
  - build the dated file name;
  - write the lines;
  - append the log entry.

## Modules

Each module is one file:

- `Results` (`results.dfy`): the `Result` and `Option` datatypes.
- `Strings` (`strings.dfy`): the parts of Python's `str` and `os.path` the program relies on:
  - `str.isspace` and `str.strip`;
  - substring search `in`;
  - `str(n)`;
  - zero-padded date fields;
  - `basename` and `dirname`;
  - the `writelines` concatenation.
- `FileLoader` (`file_loader.dfy`): `load_lines`.
  - `LoadLines` is the source's loop over the encodings, as a method.
  - `Load` is the function that specifies it.
  - Opening a file with one encoding is the parameter `open`. It returns the decoded lines, a decode error, or another error with its text.
- `FileWriter` (`file_writer.dfy`): the writer and the log.
  - The working directory is the class `Disk`. It holds a set of directories and a map from file paths to their contents.
  - The methods `MakeDirs`, `WriteLines`, `Append` and `WriteResultFile` update the `Disk` in place.
  - The function `WriteResult` gives the resulting directories, files and outcome.
  - The date used in the file name and the clock used in the log line are two separate parameters. The source reads `datetime.now()` twice.
- `Engine` (`engine.dfy`): the filter and the run.
  - `ProcessFiles` is the method, and `ScanFiles` is its loop.
  - The function `Run` specifies it and returns a `Ran`. A `Ran` holds the outcome (a summary or the raised message), the calls made, and the new working directory.
  - The calls made are a list of `Event`s:
    - `Progress(percent, status)`: a call to the progress callback;
    - `LoadCall(path)`: a call to `load_lines`;
    - `WriteCall(keyword, lines)`: a call to `write_result_file`.
  - The callbacks and the outside world are the fields of `Env`:
    - `lower`: `str.lower`;
    - `progress`: whether a progress callback was given;
    - `cancelled(i)`: the cancellation check's answer before file `i`;
    - `open`: the file system and codecs seen by `load_lines`;
    - `today` and `now`: the two clock readings.
- `EngineProperties` (`engine_properties.dfy`): properties of whole runs, stated over `Run`.

## Model

| member | source | states |
|---|---|---|
| Strings.Strip | core/engine.py:22-25 | `keyword.strip()` is an infix of the keyword. It neither starts nor ends with a white-space character, using Python's `isspace` set. |
| Strings.IsSpace | core/engine.py:22-25 | The characters Python's `str.isspace()` accepts, which `str.strip()` removes. Their use is stated by `TrimStart`, `TrimEnd`, `Strip` and `StripEmptyIff`. |
| Strings.TrimStart | core/engine.py:22-25 | Leading white space is removed. The result is a suffix of the input, everything before it is white space, and it does not start with white space. |
| Strings.TrimEnd | core/engine.py:22-25 | Trailing white space is removed. The result is a prefix of the input, everything after it is white space, and it does not end with white space. |
| Strings.StripEmptyIff | core/engine.py:22-23 | `not keyword.strip()` holds exactly when every character of the keyword is white space. |
| Strings.StripIdempotent | core/engine.py:25 | Stripping an already stripped keyword changes nothing. |
| Strings.StripLacks | core/engine.py:25 | Stripping adds no character the keyword did not have. |
| Strings.Contains | core/engine.py:82 | `needle in hay`, scanning offsets from the left. `ContainsIff` ties it both ways to an occurrence at some offset. |
| Strings.ContainsIff | core/engine.py:82 | `needle in hay` holds exactly when `needle` occurs as a contiguous slice of `hay` at some offset. |
| Strings.ContainsAt | core/engine.py:82 | When `needle in hay` holds, it is found at an offset where `needle` occurs. |
| Strings.OccursContains | core/engine.py:82 | Any offset where `needle` occurs makes `needle in hay` hold. |
| Strings.Decimal | core/engine.py:44 | `str(n)` is a non-empty string of digits with no leading zero. |
| Strings.ParseDecimal | core/engine.py:66 | Reading back `str(n)` gives `n`, so the count in the summary is the number of matches. |
| Strings.PadDigits | utils/file_writer.py:21 | A field formatted with `%d`, `%m` or `%Y` has exactly its width, and all of it is digits. |
| Strings.ParsePadDigits | utils/file_writer.py:21 | A zero-padded field reads back as the number written. |
| Strings.PadDigitsOfParse | utils/file_writer.py:21 | Every string of digits is the zero-padded form of the number it denotes. |
| Strings.Basename | core/engine.py:44 | `os.path.basename` gives the suffix after the last `'/'`. It contains no `'/'`, and is the whole path when there is none. |
| Strings.BasenameOfJoin | utils/file_writer.py:23 | The basename of `os.path.join(dir, name)` is `name` when `name` contains no `'/'`. |
| Strings.ParentOfJoin | utils/file_writer.py:23 | The directory part of `os.path.join(dir, name)` is `dir` when `name` contains no `'/'`. |
| Strings.FlattenAppend | utils/file_writer.py:27 | Writing the concatenation of two lists of lines writes the one list's text followed by the other's. |
| FileLoader.LoadLines | utils/file_loader.py:3-27 | The encoding loop returns what `Load` specifies. The encodings it tried are a prefix of the list. Each encoding before the last one tried gave a decode error. The last one ended the loop, unless the list ran out. On success, the lines are those of the last encoding tried. |
| FileLoader.TryEncodings | utils/file_loader.py:18-27 | Tries the encodings in turn: the first decoded file's lines are returned, a decode error moves on, any other error is raised as "Error reading file", and running out raises "Could not read file". `TryEncodingsOk`, `TryEncodingsReadFailed` and `TryEncodingsUndecodable` state each outcome both ways. |
| FileLoader.Load | utils/file_loader.py:3-27 | `load_lines(path)`: `TryEncodings` over the five encodings. `LoadLines` is proved to return it, and `Latin1Total` and `AliasAttemptRedundant` state its properties. |
| FileLoader.TryEncodingsOk | utils/file_loader.py:18-21 | `load_lines` returns `lines` exactly when some encoding decodes to `lines` and every earlier encoding gave a decode error. |
| FileLoader.TryEncodingsReadFailed | utils/file_loader.py:22-25 | "Error reading file" with message `m` is raised exactly when the first attempt that is not a decode error failed with `m`. |
| FileLoader.TryEncodingsUndecodable | utils/file_loader.py:27 | "Could not read file ... with any supported encoding" is raised exactly when every encoding gave a decode error. |
| FileLoader.EncodingsDistinct | utils/file_loader.py:16 | Five encoding names are tried, all different as names. Python treats `latin-1` and `iso-8859-1` as aliases of one codec; `AliasAttemptRedundant` covers that. |
| FileLoader.AliasAttemptRedundant | utils/file_loader.py:16-27 | For an opener that treats `latin-1` and `iso-8859-1` alike, as Python's codecs do, the fifth attempt never changes the outcome. `load_lines` then returns or raises what the first four attempts give. |
| FileLoader.Latin1Total | utils/file_loader.py:16-27 | If latin-1 raises no decode error, the "any supported encoding" error cannot happen. |
| FileWriter.DateStamp | utils/file_writer.py:21 | `strftime('%d%m%Y')` is eight digits. |
| FileWriter.ResultFileName | utils/file_writer.py:21-22 | `result_<DDMMYYYY>@<keyword>.txt`. `ResultFileNameRoundTrip`, `ParsedResultFileName`, `ResultFileNameInjective` and `ResultFileNameLacks` state its properties. |
| FileWriter.ResultFileNameRoundTrip | utils/file_writer.py:21-22 | The date and the keyword can be read back from the output file name. |
| FileWriter.ParsedResultFileName | utils/file_writer.py:21-22 | Every name the parser accepts is the output name of the date and keyword it reads back. |
| FileWriter.ResultFileNameInjective | utils/file_writer.py:21-22 | Two runs share an output file exactly when they have the same date and the same keyword. |
| FileWriter.ResultFileNameLacks | utils/file_writer.py:22 | A character outside the fixed parts and the digits appears in the name only if it appears in the keyword. |
| FileWriter.TimeStampFields | utils/file_writer.py:38 | The log time stamp is 19 characters with `-`, `-`, ` `, `:`, `:` in fixed places. Its six digit fields read back as the year, month, day, hour, minute and second. |
| FileWriter.TimeStampLacks | utils/file_writer.py:38 | The time stamp holds only digits and its separators. |
| FileWriter.TimeStamp | utils/file_writer.py:38 | `strftime('%Y-%m-%d %H:%M:%S')`. `TimeStampFields` and `TimeStampLacks` state its form. |
| FileWriter.LogEntry | utils/file_writer.py:38-39 | The log line `[<time>] Keyword: <k>, Matches: <n>, Output: <name>` followed by a line break. `LogEntryOneLine` states that it is a single line, and `WriteResultLog` that it is what gets appended. |
| FileWriter.LogEntryOneLine | utils/file_writer.py:39 | For a keyword with no line break, the log entry ends in `'\n'` and has no other line break. |
| FileWriter.OutputPathIsNotLog | utils/file_writer.py:23 | The output file is never `logs.txt`. |
| FileWriter.OpenError | utils/file_writer.py:26-27 | Why `open` for writing or appending fails: the path is a directory, or its directory does not exist. `WriteResultOkIff` and `WriteResultSucceeds` state when it does not fail. |
| FileWriter.WriteResult | utils/file_writer.py:5-42 | The whole of `write_result_file` with its `_log_operation` on a working directory. `WriteResultFrame`, `WriteResultLog`, `WriteResultOutput`, `WriteResultOkIff`, `WriteResultSucceeds` and `WriteTwiceReplaces` state its properties, and `Disk.WriteResultFile` is proved to do it. |
| FileWriter.WriteResultFrame | utils/file_writer.py:5-42 | A write changes no file other than the output file and `logs.txt`, and adds no directory other than `output`. |
| FileWriter.WriteResultLog | utils/file_writer.py:30-42 | A failed write leaves the log as it was. A successful one appends exactly this run's entry and returns the file name that entry names. |
| FileWriter.WriteResultOutput | utils/file_writer.py:26-27 | After a successful write, the output file holds the lines joined in order with no separator added. |
| FileWriter.WriteResultOkIff | utils/file_writer.py:17-32 | A write succeeds exactly when `output` is not a file and, once `output` exists as a directory, neither the output file nor `logs.txt` is blocked. |
| FileWriter.WriteResultSucceeds | utils/file_writer.py:17-32 | With nothing in the way and no `'/'` in the keyword, the write succeeds and returns the bare file name. |
| FileWriter.WriteTwiceReplaces | utils/file_writer.py:26-42 | A second write with the same date and keyword replaces the output file's content. The log then holds both entries in order. |
| FileWriter.Disk.MakeDirs | utils/file_writer.py:18 | `os.makedirs('output', exist_ok=True)` fails with "File exists" when `output` is a file. Otherwise `output` becomes a directory and no file changes. |
| FileWriter.Disk.WriteLines | utils/file_writer.py:26-27 | `open(path, 'w')` fails when the path is a directory or its directory is missing. Otherwise the file is created or truncated and then holds the joined lines. |
| FileWriter.Disk.Append | utils/file_writer.py:41-42 | `open('logs.txt', 'a')` fails the same way. Otherwise the text goes after what the file held, and a missing file counts as empty. |
| FileWriter.Disk.WriteResultFile | utils/file_writer.py:5-42 | The in-place write leaves the directories, files and outcome that `WriteResult` specifies. It keeps the disk valid: nothing is both a file and a directory. |
| Engine.FilterIsSubsequence | core/engine.py:70-82 | The kept lines are unchanged and in their original order. |
| Engine.FilterCounts | core/engine.py:82 | A matching line is kept as many times as it occurs. A non-matching line is not kept at all. |
| Engine.FilterKeepsExactly | core/engine.py:82 | A line is in the result exactly when it is an input line that contains the keyword, ignoring case. |
| Engine.FilterConcat | core/engine.py:51-54 | Filtering files one by one and extending the matches gives the same result as filtering all their lines at once. |
| Engine.FilterIdempotent | core/engine.py:82 | Filtering the result again changes nothing. |
| Engine.FilterLines | core/engine.py:70-82 | `filter_lines_by_keyword`: the lines whose lower-cased form contains the lower-cased keyword. Its own contract bounds the result by the input. `FilterKeepsExactly`, `FilterCounts`, `FilterIsSubsequence`, `FilterConcat` and `FilterIdempotent` state what it keeps. |
| Engine.Percent | core/engine.py:41 | The reported percentage is at most 99 for every file index, since the index is always below the number of files. Only the index equal to the count, which the loop never reaches, gives 100. |
| Engine.PercentMonotone | core/engine.py:41 | A later file never gets a smaller percentage. |
| Engine.Status.Text | core/engine.py:29-61 | The three status lines passed to the progress callback: starting with the stripped keyword, processing file `n/total` with its basename, and writing. |
| Engine.Walk | core/engine.py:33-57 | The loop from file `i` on. For each file it polls for cancellation, reports progress, loads the file and adds its matches, stopping at the first cancellation or failure. `ScanFiles` is proved to compute it. `WalkCompletes`, `WalkHaltsWith`, `WalkHaltsLoads`, `WalkHaltsCalls`, `WalkPercents`, `WalkSilent` and `WalkNeverWrites` state its properties. |
| Engine.Conclude | core/engine.py:59-68 | After the loop: re-raise its error; otherwise report 100 and then either return "No lines found" or write the matches and return "Found n matching lines". Its properties for whole runs are stated by `RunCompletesOutcome`, `RunHalts`, `RunWritesOnce` and `RunPercents`. |
| Engine.Run | core/engine.py:6-68 | `process_files`: validate, strip, start report, loop, conclude. `ProcessFiles` is proved to do it, and the `EngineProperties` lemmas state its properties. |
| Engine.ScanFiles | core/engine.py:33-57 | The loop returns exactly the matches, calls and stopping error that `Walk` specifies. |
| Engine.ProcessFiles | core/engine.py:6-68 | `process_files` returns or raises what `Run` specifies. It makes the calls `Run` lists and leaves the disk as `Run` says, and the disk stays valid. |
| EngineProperties.RunValidation | core/engine.py:19-23 | An empty path list raises "No files to process" first. Otherwise a blank keyword raises "No keyword provided". Either way no call is made and the disk is untouched. |
| EngineProperties.RunUsesStrippedKeyword | core/engine.py:25 | Only the stripped keyword matters: running with it already stripped is the same run. |
| EngineProperties.FileEventsLoaded | core/engine.py:33-48 | A loop that reads every file loads each path once, in order. |
| EngineProperties.FileEventsNoWrites | core/engine.py:33-57 | The loop never calls the writer. |
| EngineProperties.FileEventsPercents | core/engine.py:40-45 | With a progress callback, file `j` gets exactly one report, `Percent(j, total)`, in file order. |
| EngineProperties.PercentRangeAt | core/engine.py:41 | The list of reports for files `i` to `total - 1` has `Percent(j, total)` at position `j - i`. |
| EngineProperties.WalkCompletes | core/engine.py:33-57 | When every file is read, the loop ends normally. Its matches are those of all the lines of all the files in path order. |
| EngineProperties.WalkCompletesAll | core/engine.py:33-57 | The same, for the whole list of files. |
| EngineProperties.WalkHaltsWith | core/engine.py:33-57 | At the first file that is cancelled or unreadable, the loop raises "Processing cancelled by user" or "Error processing file" for that file. |
| EngineProperties.WalkHaltsLoads | core/engine.py:33-57 | The loop loads the files before the one it stops at. It also loads that file when the load itself failed, and it loads no later file. |
| EngineProperties.WalkHaltsCalls | core/engine.py:33-57 | The loop stopped by file `k` makes the full calls (report, then load) of each earlier file in order. For `k` it makes nothing when `k` is cancelled, because the poll comes before the report, or its report and load when its load failed. |
| EngineProperties.WalkHaltsHere | core/engine.py:35-48 | A cancelled file is not loaded. An unreadable file is the last one loaded. |
| EngineProperties.WalkPercents | core/engine.py:40-45 | The loop's reports never decrease and stay between the first file's percentage and 99. |
| EngineProperties.WalkSilent | core/engine.py:40 | Without a progress callback, the loop reports nothing. |
| EngineProperties.WalkNeverWrites | core/engine.py:33-57 | The loop never calls the writer, however it ends. |
| EngineProperties.RunCompletesCalls | core/engine.py:29-68 | A run that reads every file makes exactly these calls: the start report, one report and one load per path, the finish report, and the write of all matches when there are any. |
| EngineProperties.RunCompletesLoads | core/engine.py:33-48 | A run that reads every file loads each path exactly once, in order. |
| EngineProperties.RunCompletesOutcome | core/engine.py:60-68 | A run that reads every file returns "No lines found" with the disk untouched when nothing matched. Otherwise it returns what writing the matches gives: "Found n matching lines" or the writer's error. |
| EngineProperties.RunHalts | core/engine.py:29-57 | A run that stops at file `k` raises the matching error. Its calls are exactly the start report, then each earlier file's report and load, then nothing for a cancelled file `k` or its report and load for a failed one. So a cancelled file gets no progress report. It has loaded exactly the files before `k`, and `k` too when its load failed. It has not called the writer or changed the disk. |
| EngineProperties.RunPercents | core/engine.py:29-61 | The reported percentages never decrease, stay within 0..100 and start at 0. 100 appears only as the last report. Without a callback there are none. |
| EngineProperties.PercentProfile | core/engine.py:29-61 | The same, for any list made of an optional 0, a climb below 100 and an optional 100. |
| EngineProperties.RunWritesOnce | core/engine.py:63-68 | The writer is called at most once, and only as the very last call. A run that does not call it leaves the disk as it was. |
| EngineProperties.RunSavesMatches | core/engine.py:63-66 | With matches, nothing on disk in the way and no `'/'` in the keyword, the run reports the match count and the bare file name. That file holds the matched lines of all files in path order. |

## Left out

- The graphical front end, its worker thread and its message boxes (`main.py`) are not part of this model.
- The real file system, the text codecs and the clock are parameters:
  - The loader's `open(...).readlines()` with one encoding is the opaque `Opener`.
  - Splitting a file into lines is left to that `Opener`.
  - The date and the time are `Date` and `Clock` values.
- `str.lower()` is the opaque parameter `lower`. Unicode case mapping is not modelled, and neither is the fact that it can change a string's length.
- Engine.Percent: computes ⌊100·i/n⌋ exactly. Python computes `int((i / n) * 100)` in binary floating point, which can come out one lower (for i = 29, n = 100 it gives 28). The monotonicity and bounds are proved for the exact value only.
- An exception raised by the progress callback or the cancellation check itself is not modelled. In the source, one raised inside the loop's `try` would be wrapped as "Error processing file".
- Only these writer failures are modelled:
  - `output` exists as a file;
  - the output path is a directory;
  - the output file's directory is missing, which happens when the keyword contains `'/'`;
  - `logs.txt` is a directory.
  Permissions, full disks and encoding errors while writing are not modelled.
- The error texts of the writer's `OSError`s are written in their usual POSIX form, `[Errno N] ...: 'path'`. Other platforms word them differently.
- Paths are compared as literal POSIX strings and are not resolved:
  - `.` and `..` components and symbolic links are not followed. For a keyword like `x/../y`, Python opens `output/y.txt` while the model looks for the literal directory `output/result_<date>@x/..`.
  - A parent that is a file is reported as missing (`[Errno 2]`), where Python raises `[Errno 20] Not a directory`.
  - Only the immediate parent is checked.
  - `basename` and `join` split on `'/'` only, as on POSIX; Windows also splits on `'\'`.
- Years below 1000: `%Y` is modelled as four zero-padded digits, which is what glibc's `strftime` does not guarantee for such years.
- Strings.Parent: has no contract of its own. Its use is covered by `ParentOfJoin`.
- FileLoader.Load: the `Opener` is not required to treat `latin-1` and `iso-8859-1` alike. So `Load` admits openers Python's aliased codecs cannot produce, with the two names giving different outcomes. `AliasAttemptRedundant` states what follows when they agree.
- Engine.FilterLines: its only `ensures` is the length bound. What it keeps is stated by `FilterCounts`, `FilterKeepsExactly` and `FilterIsSubsequence`.
