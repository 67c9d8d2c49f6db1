/**
 * `write_result_file` and `_log_operation`: save the matched lines under
 * `output/result_<DDMMYYYY>@<keyword>.txt` and append one line to `logs.txt`.
 * The working directory is the class `Disk`: the set of directories and a
 * map from file paths to their contents. The two clock readings the source
 * takes (the date for the name, the time for the log line) are parameters.
 */
module FileWriter {
  import opened Results
  import opened Strings

  /** A calendar date as `datetime` bounds it. */
  datatype Date = Date(day: nat, month: nat, year: nat)
  {
    predicate Valid() {
      1 <= day <= 31 && 1 <= month <= 12 && 1 <= year <= 9999
    }
  }

  /** A local date and time of day, to the second. */
  datatype Clock = Clock(date: Date, hour: nat, minute: nat, second: nat)
  {
    predicate Valid() {
      date.Valid() && hour < 24 && minute < 60 && second < 60
    }
  }

  const OutputDir: string := "output"
  const LogFile: string := "logs.txt"

  // ---- names and formats ----

  /** `strftime('%d%m%Y')`: eight digits, day and month padded to two, year to four. */
  function DateStamp(d: Date): (r: string)
    requires d.Valid()
    ensures |r| == 8 && AllDigits(r)
  {
    PadDigits(d.day, 2) + PadDigits(d.month, 2) + PadDigits(d.year, 4)
  }

  /** The output file name for a date and a keyword. */
  function ResultFileName(today: Date, keyword: string): string
    requires today.Valid()
  {
    "result_" + DateStamp(today) + "@" + keyword + ".txt"
  }

  /** Recovers the date and keyword from an output file name; None for a name of another shape. */
  function ParseResultFileName(name: string): Option<(Date, string)>
  {
    if |name| >= 20 && name[..7] == "result_" && name[15] == '@' && name[|name| - 4..] == ".txt"
       && AllDigits(name[7..9]) && AllDigits(name[9..11]) && AllDigits(name[11..15])
    then
      var d := Date(ParseDigits(name[7..9]), ParseDigits(name[9..11]), ParseDigits(name[11..15]));
      if d.Valid() then Some((d, name[16..|name| - 4])) else None
    else None
  }

  /** The name keeps the date and the keyword: both can be read back from it. */
  lemma ResultFileNameRoundTrip(today: Date, keyword: string)
    requires today.Valid()
    ensures ParseResultFileName(ResultFileName(today, keyword)) == Some((today, keyword))
  {
    var name := ResultFileName(today, keyword);
    var stamp := DateStamp(today);
    assert name[..7] == "result_";
    assert name[7..15] == stamp;
    assert name[7..9] == PadDigits(today.day, 2) && name[9..11] == PadDigits(today.month, 2);
    assert name[11..15] == PadDigits(today.year, 4);
    ParsePadDigits(today.day, 2);
    ParsePadDigits(today.month, 2);
    ParsePadDigits(today.year, 4);
    assert name[16..|name| - 4] == keyword;
  }

  /** Every name the parser accepts is the output name of the date and keyword it yields. */
  lemma ParsedResultFileName(name: string, today: Date, keyword: string)
    requires ParseResultFileName(name) == Some((today, keyword))
    ensures today.Valid() && ResultFileName(today, keyword) == name
  {
    var n := |name|;
    PadDigitsOfParse(name[7..9]);
    PadDigitsOfParse(name[9..11]);
    PadDigitsOfParse(name[11..15]);
    SliceSplit(name, 7, 9, 11);
    SliceSplit(name, 7, 11, 15);
    assert DateStamp(today) == name[7..15];
    SliceSplit(name, 0, 7, n);
    SliceSplit(name, 7, 15, n);
    SliceSplit(name, 15, 16, n);
    SliceSplit(name, 16, n - 4, n);
    assert name[15..16] == "@";
    assert name[0..n] == name && name[0..7] == "result_" && name[n - 4..n] == ".txt";
    assert name == name[0..7] + (name[7..15] + (name[15..16] + (name[16..n - 4] + name[n - 4..n])));
    ResultFileNameParts(today, keyword);
  }

  /** The output name as its parts joined from the right. */
  lemma ResultFileNameParts(today: Date, keyword: string)
    requires today.Valid()
    ensures ResultFileName(today, keyword) == "result_" + (DateStamp(today) + ("@" + (keyword + ".txt")))
  {
    var stamp := DateStamp(today);
    AppendAssoc("result_", stamp, "@");
    AppendAssoc("result_" + stamp, "@", keyword);
    AppendAssoc("result_" + stamp + "@", keyword, ".txt");
    AppendAssoc("@", keyword, ".txt");
    AppendAssoc(stamp, "@", keyword + ".txt");
    AppendAssoc("result_", stamp + "@", keyword + ".txt");
    AppendAssoc("result_", stamp, "@" + (keyword + ".txt"));
  }

  /** Two runs share an output file exactly when they have the same date and the same keyword. */
  lemma ResultFileNameInjective(d1: Date, k1: string, d2: Date, k2: string)
    requires d1.Valid() && d2.Valid()
    ensures ResultFileName(d1, k1) == ResultFileName(d2, k2) <==> d1 == d2 && k1 == k2
  {
    ResultFileNameRoundTrip(d1, k1);
    ResultFileNameRoundTrip(d2, k2);
  }

  /** `os.path.join(OutputDir, name)`. */
  function OutputPath(name: string): string
  {
    OutputDir + "/" + name
  }

  /** `strftime('%Y-%m-%d %H:%M:%S')`. */
  function TimeStamp(now: Clock): string
    requires now.Valid()
  {
    PadDigits(now.date.year, 4) + "-" + PadDigits(now.date.month, 2) + "-" + PadDigits(now.date.day, 2)
    + " " + PadDigits(now.hour, 2) + ":" + PadDigits(now.minute, 2) + ":" + PadDigits(now.second, 2)
  }

  /** A time stamp is 19 characters with its separators in fixed places, and each field reads back. */
  lemma TimeStampFields(now: Clock)
    requires now.Valid()
    ensures var t := TimeStamp(now);
      |t| == 19 && t[4] == '-' && t[7] == '-' && t[10] == ' ' && t[13] == ':' && t[16] == ':'
      && AllDigits(t[0..4]) && ParseDigits(t[0..4]) == now.date.year
      && AllDigits(t[5..7]) && ParseDigits(t[5..7]) == now.date.month
      && AllDigits(t[8..10]) && ParseDigits(t[8..10]) == now.date.day
      && AllDigits(t[11..13]) && ParseDigits(t[11..13]) == now.hour
      && AllDigits(t[14..16]) && ParseDigits(t[14..16]) == now.minute
      && AllDigits(t[17..19]) && ParseDigits(t[17..19]) == now.second
  {
    var t := TimeStamp(now);
    assert t[0..4] == PadDigits(now.date.year, 4);
    assert t[5..7] == PadDigits(now.date.month, 2);
    assert t[8..10] == PadDigits(now.date.day, 2);
    assert t[11..13] == PadDigits(now.hour, 2);
    assert t[14..16] == PadDigits(now.minute, 2);
    assert t[17..19] == PadDigits(now.second, 2);
    ParsePadDigits(now.date.year, 4);
    ParsePadDigits(now.date.month, 2);
    ParsePadDigits(now.date.day, 2);
    ParsePadDigits(now.hour, 2);
    ParsePadDigits(now.minute, 2);
    ParsePadDigits(now.second, 2);
  }

  /** The line `_log_operation` appends to the log. */
  function LogEntry(now: Clock, keyword: string, count: nat, filename: string): string
    requires now.Valid()
  {
    "[" + TimeStamp(now) + "] Keyword: " + keyword + ", Matches: " + Decimal(count)
    + ", Output: " + filename + "\n"
  }

  /** The output name has none of the characters its fixed parts and date digits leave out, unless the keyword has. */
  lemma ResultFileNameLacks(today: Date, keyword: string, c: char)
    requires today.Valid() && c !in keyword && !IsDigit(c) && c !in "result_@.txt"
    ensures c !in ResultFileName(today, keyword)
  {
    DigitsLack(DateStamp(today), c);
    assert c !in "result_" && c != '@' && c !in ".txt";
  }

  /** A time stamp holds only digits and its separators. */
  lemma TimeStampLacks(now: Clock, c: char)
    requires now.Valid() && !IsDigit(c) && c !in "- :"
    ensures c !in TimeStamp(now)
  {
    DigitsLack(PadDigits(now.date.year, 4), c);
    DigitsLack(PadDigits(now.date.month, 2), c);
    DigitsLack(PadDigits(now.date.day, 2), c);
    DigitsLack(PadDigits(now.hour, 2), c);
    DigitsLack(PadDigits(now.minute, 2), c);
    DigitsLack(PadDigits(now.second, 2), c);
  }

  /** For a keyword without a line break the entry is one line: its only '\n' is its last character. */
  lemma LogEntryOneLine(now: Clock, keyword: string, count: nat, today: Date)
    requires now.Valid() && today.Valid() && '\n' !in keyword
    ensures var e := LogEntry(now, keyword, count, ResultFileName(today, keyword));
      e[|e| - 1] == '\n' && '\n' !in e[..|e| - 1]
  {
    var name := ResultFileName(today, keyword);
    var t := TimeStamp(now);
    var c := Decimal(count);
    TimeStampLacks(now, '\n');
    ResultFileNameLacks(today, keyword, '\n');
    DigitsLack(c, '\n');
    var pre := "[" + t + "] Keyword: " + keyword + ", Matches: " + c + ", Output: " + name;
    assert '\n' !in pre;
    DropLastAppend(pre, "\n");
  }

  // ---- the working directory ----

  function FileExistsMessage(path: string): string { "[Errno 17] File exists: '" + path + "'" }
  function IsADirectoryMessage(path: string): string { "[Errno 21] Is a directory: '" + path + "'" }
  function NotFoundMessage(path: string): string { "[Errno 2] No such file or directory: '" + path + "'" }

  /**
   * Why `open(path, 'w')` or `open(path, 'a')` fails, if it does: `path` is a
   * directory, or the directory it names its entry in does not exist (the
   * working directory itself, "", always does).
   */
  function OpenError(dirs: set<string>, path: string): Option<string>
  {
    if path in dirs then Some(IsADirectoryMessage(path))
    else if Parent(path) != [] && Parent(path) !in dirs then Some(NotFoundMessage(path))
    else None
  }

  /** The contents of `logs.txt`, empty while it does not exist. */
  function LogContents(files: map<string, string>): string
  {
    if LogFile in files then files[LogFile] else ""
  }

  /** The directories, files and outcome after `write_result_file`. */
  datatype Written = Written(dirs: set<string>, files: map<string, string>, result: Result<string, string>)

  /**
   * `write_result_file(lines, keyword)` on a working directory: create
   * `output` unless it is a directory already, write the lines to the output
   * file (replacing what was there), append the log line, return the name.
   */
  function WriteResult(dirs: set<string>, files: map<string, string>, lines: seq<string>, keyword: string,
                       today: Date, now: Clock): Written
    requires today.Valid() && now.Valid()
  {
    if OutputDir in files then Written(dirs, files, Err(FileExistsMessage(OutputDir)))
    else
      var dirs1 := dirs + {OutputDir};
      var name := ResultFileName(today, keyword);
      var path := OutputPath(name);
      match OpenError(dirs1, path)
      case Some(e) => Written(dirs1, files, Err(e))
      case None =>
        var files1 := files[path := Flatten(lines)];
        match OpenError(dirs1, LogFile)
        case Some(e) => Written(dirs1, files1, Err(e))
        case None => Written(dirs1, files1[LogFile := LogContents(files1) + LogEntry(now, keyword, |lines|, name)], Ok(name))
  }

  lemma OutputPathIsNotLog(name: string)
    ensures OutputPath(name) != LogFile
  {
    assert OutputPath(name)[0] != LogFile[0];
  }

  /** A write touches at most the output file and the log, and adds at most the `output` directory. */
  lemma WriteResultFrame(dirs: set<string>, files: map<string, string>, lines: seq<string>, keyword: string,
                         today: Date, now: Clock, p: string)
    requires today.Valid() && now.Valid()
    requires p != OutputPath(ResultFileName(today, keyword)) && p != LogFile
    ensures var w := WriteResult(dirs, files, lines, keyword, today, now);
      dirs <= w.dirs <= dirs + {OutputDir}
      && (p in w.files <==> p in files) && (p in files ==> w.files[p] == files[p])
  {
  }

  /**
   * The log only grows: a failed write leaves it as it was, a successful one
   * appends exactly this run's entry, naming the file it returns.
   */
  lemma WriteResultLog(dirs: set<string>, files: map<string, string>, lines: seq<string>, keyword: string,
                       today: Date, now: Clock)
    requires today.Valid() && now.Valid()
    ensures var w := WriteResult(dirs, files, lines, keyword, today, now);
      (w.result.Err? ==> LogContents(w.files) == LogContents(files))
      && (w.result.Ok? ==>
            w.result.value == ResultFileName(today, keyword)
            && LogContents(w.files) == LogContents(files) + LogEntry(now, keyword, |lines|, w.result.value))
  {
    OutputPathIsNotLog(ResultFileName(today, keyword));
  }

  /** After a successful write the output file holds the lines joined in order, with no separator added. */
  lemma WriteResultOutput(dirs: set<string>, files: map<string, string>, lines: seq<string>, keyword: string,
                          today: Date, now: Clock)
    requires today.Valid() && now.Valid()
    ensures var w := WriteResult(dirs, files, lines, keyword, today, now);
      w.result.Ok? ==>
        (OutputPath(w.result.value) in w.files && w.files[OutputPath(w.result.value)] == Flatten(lines))
  {
    OutputPathIsNotLog(ResultFileName(today, keyword));
  }

  /**
   * A write succeeds exactly when `output` is not a file and neither the
   * output file nor the log is blocked once `output` exists as a directory.
   */
  lemma WriteResultOkIff(dirs: set<string>, files: map<string, string>, lines: seq<string>, keyword: string,
                         today: Date, now: Clock)
    requires today.Valid() && now.Valid()
    ensures var dirs1 := dirs + {OutputDir};
      WriteResult(dirs, files, lines, keyword, today, now).result.Ok? <==>
        OutputDir !in files && OpenError(dirs1, OutputPath(ResultFileName(today, keyword))).None?
        && OpenError(dirs1, LogFile).None?
  {
  }

  /**
   * With `output` free to be a directory, nothing in the way of the output
   * file or the log, and no '/' in the keyword, the write succeeds and returns
   * the bare file name.
   */
  lemma WriteResultSucceeds(dirs: set<string>, files: map<string, string>, lines: seq<string>, keyword: string,
                            today: Date, now: Clock)
    requires today.Valid() && now.Valid()
    requires OutputDir !in files && LogFile !in dirs
    requires OutputPath(ResultFileName(today, keyword)) !in dirs
    requires '/' !in keyword
    ensures WriteResult(dirs, files, lines, keyword, today, now).result == Ok(ResultFileName(today, keyword))
  {
    var name := ResultFileName(today, keyword);
    var dirs1 := dirs + {OutputDir};
    ResultFileNameLacks(today, keyword, '/');
    ParentOfJoin(OutputDir, name);
    assert OutputPath(name) != OutputDir;
    assert OpenError(dirs1, OutputPath(name)) == None;
    assert Parent(LogFile) == [] by {
      assert Basename(LogFile) == LogFile;
    }
    assert OpenError(dirs1, LogFile) == None;
    WriteResultOkIff(dirs, files, lines, keyword, today, now);
    WriteResultLog(dirs, files, lines, keyword, today, now);
  }

  /**
   * Two successful writes with the same date and keyword use the same file:
   * the second replaces the first's content, and the log holds both entries.
   */
  lemma WriteTwiceReplaces(dirs: set<string>, files: map<string, string>, lines1: seq<string>, lines2: seq<string>,
                           keyword: string, today: Date, now1: Clock, now2: Clock)
    requires today.Valid() && now1.Valid() && now2.Valid()
    requires WriteResult(dirs, files, lines1, keyword, today, now1).result.Ok?
    ensures var w1 := WriteResult(dirs, files, lines1, keyword, today, now1);
      var w2 := WriteResult(w1.dirs, w1.files, lines2, keyword, today, now2);
      var name := ResultFileName(today, keyword);
      w2.result == Ok(name)
      && w2.files[OutputPath(name)] == Flatten(lines2)
      && LogContents(w2.files) == LogContents(files) + LogEntry(now1, keyword, |lines1|, name)
                                  + LogEntry(now2, keyword, |lines2|, name)
  {
    var w1 := WriteResult(dirs, files, lines1, keyword, today, now1);
    var name := ResultFileName(today, keyword);
    WriteResultOkIff(dirs, files, lines1, keyword, today, now1);
    assert |OutputPath(name)| > |OutputDir|;
    WriteResultFrame(dirs, files, lines1, keyword, today, now1, OutputDir);
    assert w1.dirs == dirs + {OutputDir} && w1.dirs + {OutputDir} == w1.dirs;
    WriteResultOkIff(w1.dirs, w1.files, lines2, keyword, today, now2);
    WriteResultLog(dirs, files, lines1, keyword, today, now1);
    WriteResultLog(w1.dirs, w1.files, lines2, keyword, today, now2);
    WriteResultOutput(w1.dirs, w1.files, lines2, keyword, today, now2);
  }

  /** The working directory the program runs in. */
  class Disk {
    var dirs: set<string>
    var files: map<string, string>

    /** Nothing is both a directory and a file. */
    ghost predicate Valid()
      reads this
    {
      dirs !! files.Keys
    }

    constructor (dirs0: set<string>, files0: map<string, string>)
      requires dirs0 !! files0.Keys
      ensures Valid() && dirs == dirs0 && files == files0
    {
      dirs, files := dirs0, files0;
    }

    /** `os.makedirs(path, exist_ok=True)` for a one-component `path`. */
    method MakeDirs(path: string) returns (r: Result<(), string>)
      requires Valid()
      modifies this
      ensures Valid() && files == old(files)
      ensures path in old(files) ==> r == Err(FileExistsMessage(path)) && dirs == old(dirs)
      ensures path !in old(files) ==> r == Ok(()) && dirs == old(dirs) + {path}
    {
      if path in files {
        return Err(FileExistsMessage(path));
      }
      dirs := dirs + {path};
      r := Ok(());
    }

    /** `open(path, 'w').writelines(lines)`: the file is created or truncated, then holds the lines joined. */
    method WriteLines(path: string, lines: seq<string>) returns (r: Result<(), string>)
      requires Valid()
      modifies this
      ensures Valid() && dirs == old(dirs)
      ensures OpenError(old(dirs), path).Some? ==> r == Err(OpenError(old(dirs), path).value) && files == old(files)
      ensures OpenError(old(dirs), path).None? ==> r == Ok(()) && files == old(files)[path := Flatten(lines)]
    {
      var e := OpenError(dirs, path);
      if e.Some? {
        return Err(e.value);
      }
      files := files[path := Flatten(lines)];
      r := Ok(());
    }

    /** `open(path, 'a').write(text)`: the file is created if missing, and `text` goes after what it held. */
    method Append(path: string, text: string) returns (r: Result<(), string>)
      requires Valid()
      modifies this
      ensures Valid() && dirs == old(dirs)
      ensures OpenError(old(dirs), path).Some? ==> r == Err(OpenError(old(dirs), path).value) && files == old(files)
      ensures OpenError(old(dirs), path).None? ==>
        r == Ok(()) && files == old(files)[path := (if path in old(files) then old(files)[path] else "") + text]
    {
      var e := OpenError(dirs, path);
      if e.Some? {
        return Err(e.value);
      }
      var before := if path in files then files[path] else "";
      files := files[path := before + text];
      r := Ok(());
    }

    /** `write_result_file(lines, keyword)` followed by its `_log_operation`. */
    method WriteResultFile(lines: seq<string>, keyword: string, today: Date, now: Clock) returns (r: Result<string, string>)
      requires Valid() && today.Valid() && now.Valid()
      modifies this
      ensures Valid()
      ensures var w := WriteResult(old(dirs), old(files), lines, keyword, today, now);
        dirs == w.dirs && files == w.files && r == w.result
    {
      var made := MakeDirs(OutputDir);
      if made.Err? {
        return Err(made.error);
      }
      var filename := ResultFileName(today, keyword);
      var written := WriteLines(OutputPath(filename), lines);
      if written.Err? {
        return Err(written.error);
      }
      OutputPathIsNotLog(filename);
      var logged := Append(LogFile, LogEntry(now, keyword, |lines|, filename));
      if logged.Err? {
        return Err(logged.error);
      }
      r := Ok(filename);
    }
  }
}
