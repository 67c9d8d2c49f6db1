/**
 * `process_files` and `filter_lines_by_keyword`: validate the request, walk
 * the files in order (poll for cancellation, report progress, load, filter,
 * accumulate), then report completion and write the matches if there are any.
 *
 * The callers' hooks and the outside world are the fields of `Env`; what the
 * run does to them is recorded as a list of `Event`s (progress callbacks,
 * `load_lines` calls, the `write_result_file` call) and as the state of the
 * working directory.
 */
module Engine {
  import opened Results
  import opened Strings
  import FileLoader
  import FileWriter

  /** Python's `str.lower()`, left abstract: it need not keep a string's length. */
  type CaseFold = string -> string

  // ---- filter_lines_by_keyword ----

  /** `keyword.lower() in line.lower()`. */
  predicate Matches(line: string, keyword: string, lower: CaseFold)
  {
    Contains(lower(line), lower(keyword))
  }

  /**
   * The lines that match the keyword, each unchanged, in their original order
   * (FilterKeepsExactly, FilterCounts, FilterIsSubsequence).
   */
  function FilterLines(lines: seq<string>, keyword: string, lower: CaseFold): (r: seq<string>)
    ensures |r| <= |lines|
  {
    if lines == [] then []
    else (if Matches(lines[0], keyword, lower) then [lines[0]] else []) + FilterLines(lines[1..], keyword, lower)
  }

  /** `r` is `s` with some elements left out and the rest in their original order. */
  ghost predicate SubsequenceOf<T>(r: seq<T>, s: seq<T>)
    decreases |s|
  {
    r == [] || (s != [] && ((r[0] == s[0] && SubsequenceOf(r[1..], s[1..])) || SubsequenceOf(r, s[1..])))
  }

  /** Filtering keeps the original order. */
  lemma {:induction false} FilterIsSubsequence(lines: seq<string>, keyword: string, lower: CaseFold)
    ensures SubsequenceOf(FilterLines(lines, keyword, lower), lines)
  {
    if lines != [] {
      FilterIsSubsequence(lines[1..], keyword, lower);
      var r := FilterLines(lines, keyword, lower);
      var rest := FilterLines(lines[1..], keyword, lower);
      if Matches(lines[0], keyword, lower) {
        assert r[0] == lines[0] && r[1..] == rest;
      } else {
        assert r == rest;
      }
    }
  }

  /** Every matching line is kept as often as it occurs, and no other line is kept. */
  lemma {:induction false} FilterCounts(lines: seq<string>, keyword: string, lower: CaseFold, x: string)
    ensures multiset(FilterLines(lines, keyword, lower))[x] ==
      if Matches(x, keyword, lower) then multiset(lines)[x] else 0
  {
    if lines != [] {
      var head := if Matches(lines[0], keyword, lower) then [lines[0]] else [];
      var rest := FilterLines(lines[1..], keyword, lower);
      FilterCounts(lines[1..], keyword, lower, x);
      CountAppend(head, rest, x);
      CountCons(lines, x);
    }
  }

  /** A line is in the result exactly when it is one of the input lines and matches the keyword. */
  lemma FilterKeepsExactly(lines: seq<string>, keyword: string, lower: CaseFold, x: string)
    ensures x in FilterLines(lines, keyword, lower) <==> x in lines && Matches(x, keyword, lower)
  {
    FilterCounts(lines, keyword, lower, x);
  }

  /** Filtering distributes over concatenation: the matches of a whole are the matches of its parts, in order. */
  lemma {:induction false} FilterConcat(a: seq<string>, b: seq<string>, keyword: string, lower: CaseFold)
    ensures FilterLines(a + b, keyword, lower) == FilterLines(a, keyword, lower) + FilterLines(b, keyword, lower)
  {
    if a == [] {
      assert a + b == b;
    } else {
      var head := if Matches(a[0], keyword, lower) then [a[0]] else [];
      calc {
        FilterLines(a + b, keyword, lower);
      == { assert (a + b)[0] == a[0] && (a + b)[1..] == a[1..] + b; }
        head + FilterLines(a[1..] + b, keyword, lower);
      == { FilterConcat(a[1..], b, keyword, lower); }
        head + (FilterLines(a[1..], keyword, lower) + FilterLines(b, keyword, lower));
      ==
        (head + FilterLines(a[1..], keyword, lower)) + FilterLines(b, keyword, lower);
      }
    }
  }

  /** Filtering what has been filtered changes nothing. */
  lemma {:induction false} FilterIdempotent(lines: seq<string>, keyword: string, lower: CaseFold)
    ensures FilterLines(FilterLines(lines, keyword, lower), keyword, lower) == FilterLines(lines, keyword, lower)
  {
    if lines != [] {
      FilterIdempotent(lines[1..], keyword, lower);
      var rest := FilterLines(lines[1..], keyword, lower);
      if Matches(lines[0], keyword, lower) {
        FilterConcat([lines[0]], rest, keyword, lower);
        assert FilterLines([lines[0]], keyword, lower) == [lines[0]] by {
          assert [lines[0]][1..] == [];
        }
      } else {
        assert FilterLines(lines, keyword, lower) == rest;
      }
    }
  }

  // ---- process_files ----

  /** What the run can observe of its callers and of the outside world. */
  datatype Env = Env(
    lower: CaseFold,                // str.lower
    progress: bool,                 // a progress callback was supplied
    cancelled: nat -> bool,         // the answer of the cancellation check at each poll (always false when none was supplied)
    open: FileLoader.Opener,        // the files and codecs load_lines sees
    today: FileWriter.Date,         // the date write_result_file reads
    now: FileWriter.Clock)          // the time _log_operation reads
  {
    predicate Valid() {
      today.Valid() && now.Valid()
    }
  }

  /** The status line passed to the progress callback; `Text` gives its wording. */
  datatype Status =
    | Starting(keyword: string)
    | Processing(position: nat, total: nat, path: string)   // position counts from 1
    | Writing
  {
    function Text(): string {
      match this
      case Starting(kw) => "Starting keyword search for '" + kw + "'..."
      case Processing(n, total, path) => "Processing file " + Decimal(n) + "/" + Decimal(total) + ": " + Basename(path)
      case Writing => "Writing results to file..."
    }
  }

  /** An observable call the run makes. */
  datatype Event =
    | Progress(percent: nat, status: Status)         // progress_callback(percent, status.Text())
    | LoadCall(path: string)                         // load_lines(path)
    | WriteCall(keyword: string, lines: seq<string>) // write_result_file(lines, keyword)

  const NoFilesMessage: string := "No files to process"
  const NoKeywordMessage: string := "No keyword provided"
  const CancelledMessage: string := "Processing cancelled by user"

  function FileErrorMessage(path: string, message: string): string
  {
    "Error processing file " + path + ": " + message
  }

  function FoundSummary(count: nat, filename: string): string
  {
    "Found " + Decimal(count) + " matching lines. Saved to: " + filename
  }

  function NoMatchSummary(keyword: string): string
  {
    "No lines found containing keyword '" + keyword + "'"
  }

  /** The percentage reported before file `index` of `total`: `index * 100 / total` rounded down. */
  function Percent(index: nat, total: nat): (r: nat)
    requires index <= total && 0 < total
    ensures r <= 100 && (index < total ==> r <= 99)
  {
    FloorBelow(index * 100, total, if index < total then 100 else 101);
    index * 100 / total
  }

  /** A quotient rounded down is below `k` when the dividend is below `k` times the divisor. */
  lemma FloorBelow(n: nat, d: nat, k: nat)
    requires 0 < d && n < k * d
    ensures n / d < k
  {
    var q := n / d;
    assert q * d <= n;
    if q >= k {
      MulMonotone(k, q, d);
    }
  }

  lemma MulMonotone(a: nat, b: nat, d: nat)
    requires a <= b
    ensures a * d <= b * d
  {
  }

  /** Later files never report a smaller percentage. */
  lemma PercentMonotone(i: nat, j: nat, total: nat)
    requires i <= j <= total && 0 < total
    ensures Percent(i, total) <= Percent(j, total)
  {
    DivMonotone(i * 100, j * 100, total);
  }

  /** Rounding down keeps the order of the dividends. */
  lemma DivMonotone(n: nat, m: nat, d: nat)
    requires 0 < d && n <= m
    ensures n / d <= m / d
  {
    var q := m / d;
    assert m == q * d + m % d;
    assert (q + 1) * d == q * d + d;
    FloorBelow(n, d, q + 1);
  }

  /** The progress call made before file `i`, if a callback was supplied. */
  function Report(paths: seq<string>, i: nat, progress: bool): seq<Event>
    requires i < |paths|
  {
    if progress then [Progress(Percent(i, |paths|), Processing(i + 1, |paths|, paths[i]))] else []
  }

  /** What the loop over the files leaves: the matches so far, the calls made, and the error raised, if any. */
  datatype Walked = Walked(matches: seq<string>, events: seq<Event>, stop: Option<string>)

  /** The loop of `process_files` from file `i` on, with the stripped keyword `kw`. */
  function Walk(paths: seq<string>, i: nat, kw: string, env: Env): Walked
    requires i <= |paths|
    decreases |paths| - i
  {
    if i == |paths| then Walked([], [], None)
    else if env.cancelled(i) then Walked([], [], Some(CancelledMessage))
    else
      var calls := Report(paths, i, env.progress) + [LoadCall(paths[i])];
      match FileLoader.Load(paths[i], env.open)
      case Err(e) => Walked([], calls, Some(FileErrorMessage(paths[i], e.Message())))
      case Ok(lines) =>
        var rest := Walk(paths, i + 1, kw, env);
        Walked(FilterLines(lines, kw, env.lower) + rest.matches, calls + rest.events, rest.stop)
  }

  /** The loop's result when `matches` and `events` came before the walk `w`. */
  function Resume(matches: seq<string>, events: seq<Event>, w: Walked): Walked
  {
    Walked(matches + w.matches, events + w.events, w.stop)
  }

  /** Nothing is added after a loop that stops before reading anything more. */
  lemma ResumeDone(matches: seq<string>, events: seq<Event>, stop: Option<string>)
    ensures Resume(matches, events, Walked([], [], stop)) == Walked(matches, events, stop)
  {
    assert matches + [] == matches && events + [] == events;
  }

  /** One turn of the loop: file `i` is neither cancelled nor unreadable, so the walk goes on to file `i + 1`. */
  lemma WalkStep(paths: seq<string>, i: nat, kw: string, env: Env, lines: seq<string>)
    requires i < |paths| && !env.cancelled(i) && FileLoader.Load(paths[i], env.open) == Ok(lines)
    ensures var w, rest := Walk(paths, i, kw, env), Walk(paths, i + 1, kw, env);
      w.matches == FilterLines(lines, kw, env.lower) + rest.matches
      && w.events == Report(paths, i, env.progress) + [LoadCall(paths[i])] + rest.events
      && w.stop == rest.stop
  {
  }

  /** Reading file `i` moves its calls and its matches from the walk to what came before. */
  lemma ResumeStep(paths: seq<string>, i: nat, kw: string, env: Env, lines: seq<string>,
                   matches: seq<string>, events: seq<Event>)
    requires i < |paths| && !env.cancelled(i) && FileLoader.Load(paths[i], env.open) == Ok(lines)
    ensures Resume(matches, events, Walk(paths, i, kw, env)) ==
      Resume(matches + FilterLines(lines, kw, env.lower), events + Report(paths, i, env.progress) + [LoadCall(paths[i])],
             Walk(paths, i + 1, kw, env))
  {
    var rest := Walk(paths, i + 1, kw, env);
    WalkStep(paths, i, kw, env, lines);
    AppendAssoc(events, Report(paths, i, env.progress) + [LoadCall(paths[i])], rest.events);
    AppendAssoc(events, Report(paths, i, env.progress), [LoadCall(paths[i])]);
    AppendAssoc(matches, FilterLines(lines, kw, env.lower), rest.matches);
  }

  /** A file that cannot be loaded ends the loop after its calls, with its error. */
  lemma ResumeFails(paths: seq<string>, i: nat, kw: string, env: Env, matches: seq<string>, events: seq<Event>)
    requires i < |paths| && !env.cancelled(i) && FileLoader.Load(paths[i], env.open).Err?
    ensures Resume(matches, events, Walk(paths, i, kw, env)) ==
      Walked(matches, events + Report(paths, i, env.progress) + [LoadCall(paths[i])],
             Some(FileErrorMessage(paths[i], FileLoader.Load(paths[i], env.open).error.Message())))
  {
    AppendAssoc(events, Report(paths, i, env.progress), [LoadCall(paths[i])]);
    assert matches + [] == matches;
  }

  /** The outcome, the calls made, and the working directory after a whole run. */
  datatype Ran = Ran(outcome: Result<string, string>, events: seq<Event>, dirs: set<string>, files: map<string, string>)

  function StartEvents(kw: string, progress: bool): seq<Event>
  {
    if progress then [Progress(0, Starting(kw))] else []
  }

  function FinishEvents(progress: bool): seq<Event>
  {
    if progress then [Progress(100, Writing)] else []
  }

  /** What the summary or error of a run is once the writer has returned `written`. */
  function Summary(written: Result<string, string>, count: nat): Result<string, string>
  {
    match written
    case Ok(name) => Ok(FoundSummary(count, name))
    case Err(e) => Err(e)
  }

  /** The rest of a run once the loop has produced `w`: raise its error, or report completion and write the matches if any. */
  function Conclude(kw: string, w: Walked, env: Env, dirs: set<string>, files: map<string, string>): Ran
    requires env.Valid()
  {
    var before := StartEvents(kw, env.progress) + w.events;
    if w.stop.Some? then Ran(Err(w.stop.value), before, dirs, files)
    else if w.matches == [] then Ran(Ok(NoMatchSummary(kw)), before + FinishEvents(env.progress), dirs, files)
    else
      var written := FileWriter.WriteResult(dirs, files, w.matches, kw, env.today, env.now);
      Ran(Summary(written.result, |w.matches|), before + FinishEvents(env.progress) + [WriteCall(kw, w.matches)],
          written.dirs, written.files)
  }

  /** `process_files(paths, keyword, ...)` run against a working directory. */
  function Run(paths: seq<string>, keyword: string, env: Env, dirs: set<string>, files: map<string, string>): Ran
    requires env.Valid()
  {
    if paths == [] then Ran(Err(NoFilesMessage), [], dirs, files)
    else if Strip(keyword) == [] then Ran(Err(NoKeywordMessage), [], dirs, files)
    else Conclude(Strip(keyword), Walk(paths, 0, Strip(keyword), env), env, dirs, files)
  }

  /**
   * The loop of `process_files`: for each file in turn, poll for cancellation,
   * report progress, load the file and extend the matches with its matching
   * lines; stop at the first cancellation or failure.
   */
  method ScanFiles(paths: seq<string>, kw: string, env: Env) returns (matches: seq<string>, events: seq<Event>, stop: Option<string>)
    ensures Walked(matches, events, stop) == Walk(paths, 0, kw, env)
  {
    matches, events := [], [];
    var total := |paths|;
    var i := 0;
    while i < total
      invariant 0 <= i <= total
      invariant Walk(paths, 0, kw, env) == Resume(matches, events, Walk(paths, i, kw, env))
    {
      if env.cancelled(i) {
        ResumeDone(matches, events, Some(CancelledMessage));
        return matches, events, Some(CancelledMessage);
      }
      ghost var before := events;
      if env.progress {
        events := events + [Progress(Percent(i, total), Processing(i + 1, total, paths[i]))];
      }
      assert events == before + Report(paths, i, env.progress);
      events := events + [LoadCall(paths[i])];
      var loaded;
      ghost var tried;
      loaded, tried := FileLoader.LoadLines(paths[i], env.open);
      if loaded.Err? {
        var stopped := Some(FileErrorMessage(paths[i], loaded.error.Message()));
        ResumeFails(paths, i, kw, env, matches, before);
        return matches, events, stopped;
      }
      var found := FilterLines(loaded.value, kw, env.lower);
      ResumeStep(paths, i, kw, env, loaded.value, matches, before);
      matches := matches + found;
      i := i + 1;
    }
    ResumeDone(matches, events, None);
    stop := None;
  }

  /** `process_files(paths, keyword, ...)`: validate, scan the files, report completion, write the matches if any. */
  method ProcessFiles(paths: seq<string>, keyword: string, env: Env, disk: FileWriter.Disk)
    returns (r: Result<string, string>, events: seq<Event>)
    requires env.Valid() && disk.Valid()
    modifies disk
    ensures disk.Valid()
    ensures var run := Run(paths, keyword, env, old(disk.dirs), old(disk.files));
      r == run.outcome && events == run.events && disk.dirs == run.dirs && disk.files == run.files
  {
    events := [];
    if paths == [] {
      return Err(NoFilesMessage), events;
    }
    if Strip(keyword) == [] {
      return Err(NoKeywordMessage), events;
    }
    var kw := Strip(keyword);
    if env.progress {
      events := events + [Progress(0, Starting(kw))];
    }
    var matches, scanned, stop := ScanFiles(paths, kw, env);
    ghost var dirs0, files0 := disk.dirs, disk.files;
    assert Run(paths, keyword, env, dirs0, files0) == Conclude(kw, Walked(matches, scanned, stop), env, dirs0, files0);
    assert events == StartEvents(kw, env.progress);
    events := events + scanned;
    if stop.Some? {
      return Err(stop.value), events;
    }
    if env.progress {
      events := events + [Progress(100, Writing)];
    }
    assert events == StartEvents(kw, env.progress) + scanned + FinishEvents(env.progress);
    if matches != [] {
      events := events + [WriteCall(kw, matches)];
      var written := disk.WriteResultFile(matches, kw, env.today, env.now);
      match written
      case Ok(name) => r := Ok(FoundSummary(|matches|, name));
      case Err(e) => r := Err(e);
      assert r == Summary(written, |matches|);
    } else {
      r := Ok(NoMatchSummary(kw));
    }
  }
}
