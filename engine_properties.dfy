/**
 * What a whole `process_files` run does, stated over `Engine.Run`: the
 * validation order, the stripped keyword, the files loaded, the progress
 * percentages reported, and when the writer is called and the disk changes.
 */
module EngineProperties {
  import opened Results
  import opened Strings
  import FileLoader
  import FileWriter
  import opened Engine

  // ---- views of the calls a run makes ----

  /** The percentages passed to the progress callback, in call order. */
  function Percents(events: seq<Event>): seq<nat>
  {
    if events == [] then []
    else (if events[0].Progress? then [events[0].percent] else []) + Percents(events[1..])
  }

  /** The paths passed to `load_lines`, in call order. */
  function Loaded(events: seq<Event>): seq<string>
  {
    if events == [] then []
    else (if events[0].LoadCall? then [events[0].path] else []) + Loaded(events[1..])
  }

  /** The calls to `write_result_file`, in call order. */
  function Writes(events: seq<Event>): seq<Event>
  {
    if events == [] then []
    else (if events[0].WriteCall? then [events[0]] else []) + Writes(events[1..])
  }

  lemma {:induction false} PercentsAppend(a: seq<Event>, b: seq<Event>)
    ensures Percents(a + b) == Percents(a) + Percents(b)
  {
    if a == [] {
      assert a + b == b;
    } else {
      assert (a + b)[0] == a[0] && (a + b)[1..] == a[1..] + b;
      PercentsAppend(a[1..], b);
    }
  }

  lemma {:induction false} LoadedAppend(a: seq<Event>, b: seq<Event>)
    ensures Loaded(a + b) == Loaded(a) + Loaded(b)
  {
    if a == [] {
      assert a + b == b;
    } else {
      assert (a + b)[0] == a[0] && (a + b)[1..] == a[1..] + b;
      LoadedAppend(a[1..], b);
    }
  }

  lemma {:induction false} WritesAppend(a: seq<Event>, b: seq<Event>)
    ensures Writes(a + b) == Writes(a) + Writes(b)
  {
    if a == [] {
      assert a + b == b;
    } else {
      assert (a + b)[0] == a[0] && (a + b)[1..] == a[1..] + b;
      WritesAppend(a[1..], b);
    }
  }

  /** A slice is its first element followed by the rest. */
  lemma SliceCons<T>(s: seq<T>, i: nat, k: nat)
    requires i < k <= |s|
    ensures s[i..k] == [s[i]] + s[i + 1..k]
  {
  }

  lemma SliceAll<T>(s: seq<T>)
    ensures s[0..] == s
  {
  }

  predicate Ascending(s: seq<nat>)
  {
    forall a, b :: 0 <= a < b < |s| ==> s[a] <= s[b]
  }

  /** `s` never decreases, and all of it lies between `lo` and `hi`. */
  predicate Climbs(s: seq<nat>, lo: nat, hi: nat)
  {
    s == [] || (lo <= s[0] <= hi && Climbs(s[1..], s[0], hi))
  }

  lemma ClimbsLower(s: seq<nat>, lo: nat, lo2: nat, hi: nat)
    requires lo2 <= lo && Climbs(s, lo, hi)
    ensures Climbs(s, lo2, hi)
  {
  }

  lemma {:induction false} ClimbsAppend(a: seq<nat>, b: seq<nat>, lo: nat, mid: nat, hi: nat)
    requires lo <= mid <= hi && Climbs(a, lo, mid) && Climbs(b, mid, hi)
    ensures Climbs(a + b, lo, hi)
  {
    if a == [] {
      assert a + b == b;
      ClimbsLower(b, mid, lo, hi);
    } else {
      ClimbsAppend(a[1..], b, a[0], mid, hi);
      assert (a + b)[1..] == a[1..] + b;
    }
  }

  /** A climb from `p` may be preceded by `p` itself. */
  lemma ClimbsPrepend(p: nat, rest: seq<nat>, hi: nat, emit: bool)
    requires p <= hi && Climbs(rest, p, hi)
    ensures Climbs((if emit then [p] else []) + rest, p, hi)
  {
    if emit {
      assert ([p] + rest)[1..] == rest;
    } else {
      assert [] + rest == rest;
    }
  }

  lemma {:induction false} ClimbsAscending(s: seq<nat>, lo: nat, hi: nat)
    requires Climbs(s, lo, hi)
    ensures Ascending(s) && forall x :: 0 <= x < |s| ==> lo <= s[x] <= hi
  {
    if s != [] {
      ClimbsAscending(s[1..], s[0], hi);
      forall a, b | 0 <= a < b < |s| ensures s[a] <= s[b] {
        if a > 0 {
          assert s[a] == s[1..][a - 1];
        }
        assert s[b] == s[1..][b - 1];
      }
      forall x | 0 < x < |s| ensures lo <= s[x] <= hi {
        assert s[x] == s[1..][x - 1];
      }
    }
  }

  // ---- validation and the keyword ----

  /**
   * Validation comes before anything else: no paths is refused first, then a
   * keyword that is blank once stripped; either way nothing is called and the
   * disk is untouched.
   */
  lemma RunValidation(paths: seq<string>, keyword: string, env: Env, dirs: set<string>, files: map<string, string>)
    requires env.Valid()
    ensures paths == [] ==> Run(paths, keyword, env, dirs, files) == Ran(Err(NoFilesMessage), [], dirs, files)
    ensures paths != [] && AllSpace(keyword) ==>
      Run(paths, keyword, env, dirs, files) == Ran(Err(NoKeywordMessage), [], dirs, files)
  {
    StripEmptyIff(keyword);
  }

  /** Only the stripped keyword matters: a run with the keyword already stripped is the same run. */
  lemma RunUsesStrippedKeyword(paths: seq<string>, keyword: string, env: Env, dirs: set<string>, files: map<string, string>)
    requires env.Valid()
    ensures Run(paths, keyword, env, dirs, files) == Run(paths, Strip(keyword), env, dirs, files)
  {
    StripIdempotent(keyword);
  }

  // ---- the loop ----

  /** File `j` is read: the run is not cancelled before it and it loads. */
  predicate Reads(paths: seq<string>, j: nat, env: Env)
    requires j < |paths|
  {
    !env.cancelled(j) && FileLoader.Load(paths[j], env.open).Ok?
  }

  /** File `j` is read and holds `lines`. */
  predicate ReadsAs(paths: seq<string>, j: nat, env: Env, lines: seq<string>)
    requires j < |paths|
  {
    !env.cancelled(j) && FileLoader.Load(paths[j], env.open) == Ok(lines)
  }

  /** The calls of a loop that reads every file from `i` on: a progress report if wanted, then the load. */
  function FileEvents(paths: seq<string>, i: nat, progress: bool): seq<Event>
    requires i <= |paths|
    decreases |paths| - i
  {
    if i == |paths| then [] else Report(paths, i, progress) + [LoadCall(paths[i])] + FileEvents(paths, i + 1, progress)
  }

  /** The loop loads every file from `i` on once, in order. */
  lemma {:induction false} FileEventsLoaded(paths: seq<string>, i: nat, progress: bool)
    requires i <= |paths|
    ensures Loaded(FileEvents(paths, i, progress)) == paths[i..]
    decreases |paths| - i
  {
    if i < |paths| {
      var rest := FileEvents(paths, i + 1, progress);
      FileEventsLoaded(paths, i + 1, progress);
      CallsLoaded(paths, i, progress);
      LoadedAppend(Calls(paths, i, progress), rest);
      SliceCons(paths, i, |paths|);
    }
  }

  /** The loop never calls the writer. */
  lemma {:induction false} FileEventsNoWrites(paths: seq<string>, i: nat, progress: bool)
    requires i <= |paths|
    ensures Writes(FileEvents(paths, i, progress)) == []
    decreases |paths| - i
  {
    if i < |paths| {
      FileEventsNoWrites(paths, i + 1, progress);
      CallsWrites(paths, i, progress);
      WritesAppend(Calls(paths, i, progress), FileEvents(paths, i + 1, progress));
    }
  }

  /** The percentages reported for files `i` to `total - 1`, in order. */
  function PercentRange(i: nat, total: nat): seq<nat>
    requires i <= total
    decreases total - i
  {
    if i == total then [] else [Percent(i, total)] + PercentRange(i + 1, total)
  }

  lemma {:induction false} PercentRangeAt(i: nat, total: nat)
    requires i <= total
    ensures var ps := PercentRange(i, total);
      |ps| == total - i && forall j :: i <= j < total ==> ps[j - i] == Percent(j, total)
    decreases total - i
  {
    if i < total {
      var ps, rest := PercentRange(i, total), PercentRange(i + 1, total);
      PercentRangeAt(i + 1, total);
      forall j | i < j < total ensures ps[j - i] == Percent(j, total) {
        assert ps[j - i] == rest[j - (i + 1)];
      }
    }
  }

  lemma {:induction false} FileEventsPercentRange(paths: seq<string>, i: nat)
    requires i <= |paths|
    ensures Percents(FileEvents(paths, i, true)) == PercentRange(i, |paths|)
    decreases |paths| - i
  {
    if i < |paths| {
      FileEventsPercentRange(paths, i + 1);
      CallsPercents(paths, i, true);
      PercentsAppend(Calls(paths, i, true), FileEvents(paths, i + 1, true));
    }
  }

  /**
   * With a progress callback, the loop reports one percentage per file,
   * `Percent(j, total)` for file `j` (without one it reports none: see `WalkSilent`).
   */
  lemma FileEventsPercents(paths: seq<string>, i: nat)
    requires i <= |paths|
    ensures var ps := Percents(FileEvents(paths, i, true));
      |ps| == |paths| - i && forall j :: i <= j < |paths| ==> ps[j - i] == Percent(j, |paths|)
  {
    FileEventsPercentRange(paths, i);
    PercentRangeAt(i, |paths|);
  }

  /** When every file from `i` on is read, the loop ends normally with the matches of all of them, in path order. */
  lemma {:induction false} WalkCompletes(paths: seq<string>, i: nat, kw: string, env: Env, loaded: seq<seq<string>>)
    requires i <= |paths| == |loaded|
    requires forall j :: i <= j < |paths| ==> ReadsAs(paths, j, env, loaded[j])
    ensures Walk(paths, i, kw, env) ==
      Walked(FilterLines(Flatten(loaded[i..]), kw, env.lower), FileEvents(paths, i, env.progress), None)
    decreases |paths| - i
  {
    if i == |paths| {
      assert loaded[i..] == [];
    } else {
      WalkCompletes(paths, i + 1, kw, env, loaded);
      SliceCons(loaded, i, |loaded|);
      FilterConcat(loaded[i], Flatten(loaded[i + 1..]), kw, env.lower);
    }
  }

  /** The calls made for file `i` up to its load: its progress report, if wanted, then the load itself. */
  function Calls(paths: seq<string>, i: nat, progress: bool): seq<Event>
    requires i < |paths|
  {
    Report(paths, i, progress) + [LoadCall(paths[i])]
  }

  lemma CallsLoaded(paths: seq<string>, i: nat, progress: bool)
    requires i < |paths|
    ensures Loaded(Calls(paths, i, progress)) == [paths[i]]
  {
    LoadedAppend(Report(paths, i, progress), [LoadCall(paths[i])]);
    assert Loaded([LoadCall(paths[i])]) == [paths[i]];
  }

  lemma CallsWrites(paths: seq<string>, i: nat, progress: bool)
    requires i < |paths|
    ensures Writes(Calls(paths, i, progress)) == []
  {
    WritesAppend(Report(paths, i, progress), [LoadCall(paths[i])]);
  }

  lemma CallsPercents(paths: seq<string>, i: nat, progress: bool)
    requires i < |paths|
    ensures Percents(Calls(paths, i, progress)) == if progress then [Percent(i, |paths|)] else []
  {
    PercentsAppend(Report(paths, i, progress), [LoadCall(paths[i])]);
  }

  /** The calls made for files `i` to `k - 1`, each read in full, in file order. */
  function CallsTo(paths: seq<string>, i: nat, k: nat, progress: bool): seq<Event>
    requires i <= k <= |paths|
    decreases k - i
  {
    if i == k then [] else Calls(paths, i, progress) + CallsTo(paths, i + 1, k, progress)
  }

  /** A file that cannot be loaded ends the loop right after its load. */
  lemma WalkFails(paths: seq<string>, i: nat, kw: string, env: Env)
    requires i < |paths| && !env.cancelled(i) && FileLoader.Load(paths[i], env.open).Err?
    ensures Walk(paths, i, kw, env) ==
      Walked([], Calls(paths, i, env.progress),
             Some(FileErrorMessage(paths[i], FileLoader.Load(paths[i], env.open).error.Message())))
  {
  }

  /** The loads of one turn of the loop that reads file `i` and goes on. */
  lemma WalkStepLoaded(paths: seq<string>, i: nat, kw: string, env: Env, lines: seq<string>)
    requires i < |paths| && !env.cancelled(i) && FileLoader.Load(paths[i], env.open) == Ok(lines)
    ensures Loaded(Walk(paths, i, kw, env).events) == [paths[i]] + Loaded(Walk(paths, i + 1, kw, env).events)
  {
    WalkStep(paths, i, kw, env, lines);
    CallsLoaded(paths, i, env.progress);
    LoadedAppend(Calls(paths, i, env.progress), Walk(paths, i + 1, kw, env).events);
  }

  /** The progress reports of one turn of the loop that reads file `i` and goes on. */
  lemma WalkStepPercents(paths: seq<string>, i: nat, kw: string, env: Env, lines: seq<string>)
    requires i < |paths| && !env.cancelled(i) && FileLoader.Load(paths[i], env.open) == Ok(lines)
    ensures Percents(Walk(paths, i, kw, env).events) ==
      (if env.progress then [Percent(i, |paths|)] else []) + Percents(Walk(paths, i + 1, kw, env).events)
  {
    WalkStep(paths, i, kw, env, lines);
    CallsPercents(paths, i, env.progress);
    PercentsAppend(Calls(paths, i, env.progress), Walk(paths, i + 1, kw, env).events);
  }

  /**
   * When file `k` is the first from `i` on that is cancelled or unreadable,
   * the loop stops there with the matching error: a cancellation before the
   * file's load, a load failure after it.
   */
  lemma {:induction false} WalkHaltsWith(paths: seq<string>, i: nat, k: nat, kw: string, env: Env)
    requires i <= k < |paths|
    requires forall j :: i <= j < k ==> Reads(paths, j, env)
    requires env.cancelled(k) || FileLoader.Load(paths[k], env.open).Err?
    ensures Walk(paths, i, kw, env).stop ==
      if env.cancelled(k) then Some(CancelledMessage)
      else Some(FileErrorMessage(paths[k], FileLoader.Load(paths[k], env.open).error.Message()))
    decreases k - i
  {
    if i == k && env.cancelled(i) {
    } else if i == k {
      WalkFails(paths, i, kw, env);
    } else {
      assert Reads(paths, i, env);
      WalkStep(paths, i, kw, env, FileLoader.Load(paths[i], env.open).value);
      WalkHaltsWith(paths, i + 1, k, kw, env);
    }
  }

  /**
   * When file `k` is the first from `i` on that is cancelled or unreadable,
   * the loop loads the files before it and, unless it was cancelled, file `k`
   * itself, and no later file.
   */
  lemma {:induction false} WalkHaltsLoads(paths: seq<string>, i: nat, k: nat, kw: string, env: Env)
    requires i <= k < |paths|
    requires forall j :: i <= j < k ==> Reads(paths, j, env)
    requires env.cancelled(k) || FileLoader.Load(paths[k], env.open).Err?
    ensures Loaded(Walk(paths, i, kw, env).events) == if env.cancelled(k) then paths[i..k] else paths[i..k + 1]
    decreases k - i
  {
    var n := if env.cancelled(k) then k else k + 1;
    if i == k {
      WalkHaltsHere(paths, k, kw, env);
      assert paths[k..k + 1] == [paths[k]];
    } else {
      assert Reads(paths, i, env);
      WalkStepLoaded(paths, i, kw, env, FileLoader.Load(paths[i], env.open).value);
      WalkHaltsLoads(paths, i + 1, k, kw, env);
      SliceCons(paths, i, n);
    }
  }

  /**
   * When file `k` is the first from `i` on that is cancelled or unreadable,
   * the loop makes the full calls of every file before it, then nothing for a
   * cancelled file (the poll comes before its progress report and its load),
   * or the report and the load of a file whose load failed.
   */
  lemma {:induction false} WalkHaltsCalls(paths: seq<string>, i: nat, k: nat, kw: string, env: Env)
    requires i <= k < |paths|
    requires forall j :: i <= j < k ==> Reads(paths, j, env)
    requires env.cancelled(k) || FileLoader.Load(paths[k], env.open).Err?
    ensures Walk(paths, i, kw, env).events ==
      CallsTo(paths, i, k, env.progress) + (if env.cancelled(k) then [] else Calls(paths, k, env.progress))
    decreases k - i
  {
    var last := if env.cancelled(k) then [] else Calls(paths, k, env.progress);
    if i == k {
      if !env.cancelled(k) {
        WalkFails(paths, k, kw, env);
      }
      assert [] + last == last;
    } else {
      assert Reads(paths, i, env);
      WalkStep(paths, i, kw, env, FileLoader.Load(paths[i], env.open).value);
      WalkHaltsCalls(paths, i + 1, k, kw, env);
      AppendAssoc(Calls(paths, i, env.progress), CallsTo(paths, i + 1, k, env.progress), last);
    }
  }

  /** A file that is cancelled is not loaded; one that cannot be loaded is the last one loaded. */
  lemma WalkHaltsHere(paths: seq<string>, k: nat, kw: string, env: Env)
    requires k < |paths| && (env.cancelled(k) || FileLoader.Load(paths[k], env.open).Err?)
    ensures Loaded(Walk(paths, k, kw, env).events) == if env.cancelled(k) then [] else [paths[k]]
  {
    if !env.cancelled(k) {
      WalkFails(paths, k, kw, env);
      CallsLoaded(paths, k, env.progress);
    }
  }

  /** Every percentage the loop reports from file `i` on is at least file `i`'s and at most 99, and they never decrease. */
  lemma {:induction false} WalkPercents(paths: seq<string>, i: nat, kw: string, env: Env)
    requires i <= |paths|
    ensures var ps := Percents(Walk(paths, i, kw, env).events);
      (i == |paths| ==> ps == []) && (i < |paths| ==> Climbs(ps, Percent(i, |paths|), 99))
    decreases |paths| - i
  {
    if i == |paths| || env.cancelled(i) {
      assert Walk(paths, i, kw, env).events == [];
    } else if FileLoader.Load(paths[i], env.open).Err? {
      WalkFailsPercents(paths, i, kw, env);
    } else {
      var p := Percent(i, |paths|);
      var rest := Percents(Walk(paths, i + 1, kw, env).events);
      WalkStepPercents(paths, i, kw, env, FileLoader.Load(paths[i], env.open).value);
      WalkPercents(paths, i + 1, kw, env);
      if i + 1 < |paths| {
        PercentMonotone(i, i + 1, |paths|);
        ClimbsLower(rest, Percent(i + 1, |paths|), p, 99);
      }
      ClimbsPrepend(p, rest, 99, env.progress);
    }
  }

  /** A file that cannot be loaded ends the loop after its own report, if any. */
  lemma WalkFailsPercents(paths: seq<string>, i: nat, kw: string, env: Env)
    requires i < |paths| && !env.cancelled(i) && FileLoader.Load(paths[i], env.open).Err?
    ensures Climbs(Percents(Walk(paths, i, kw, env).events), Percent(i, |paths|), 99)
  {
    WalkFails(paths, i, kw, env);
    CallsPercents(paths, i, env.progress);
    ClimbsPrepend(Percent(i, |paths|), [], 99, env.progress);
    assert (if env.progress then [Percent(i, |paths|)] else []) + [] == Percents(Calls(paths, i, env.progress));
  }

  /** Without a progress callback the loop reports nothing. */
  lemma {:induction false} WalkSilent(paths: seq<string>, i: nat, kw: string, env: Env)
    requires i <= |paths| && !env.progress
    ensures Percents(Walk(paths, i, kw, env).events) == []
    decreases |paths| - i
  {
    if i == |paths| || env.cancelled(i) {
      assert Walk(paths, i, kw, env).events == [];
    } else if FileLoader.Load(paths[i], env.open).Err? {
      WalkFails(paths, i, kw, env);
      CallsPercents(paths, i, env.progress);
    } else {
      WalkStep(paths, i, kw, env, FileLoader.Load(paths[i], env.open).value);
      WalkSilent(paths, i + 1, kw, env);
      CallsPercents(paths, i, env.progress);
      PercentsAppend(Calls(paths, i, env.progress), Walk(paths, i + 1, kw, env).events);
    }
  }

  /** The loop never calls the writer. */
  lemma {:induction false} WalkNeverWrites(paths: seq<string>, i: nat, kw: string, env: Env)
    requires i <= |paths|
    ensures Writes(Walk(paths, i, kw, env).events) == []
    decreases |paths| - i
  {
    if i == |paths| || env.cancelled(i) {
      assert Walk(paths, i, kw, env).events == [];
    } else if FileLoader.Load(paths[i], env.open).Err? {
      WalkFails(paths, i, kw, env);
      CallsWrites(paths, i, env.progress);
    } else {
      WalkStep(paths, i, kw, env, FileLoader.Load(paths[i], env.open).value);
      WalkNeverWrites(paths, i + 1, kw, env);
      CallsWrites(paths, i, env.progress);
      WritesAppend(Calls(paths, i, env.progress), Walk(paths, i + 1, kw, env).events);
    }
  }

  // ---- whole runs ----

  /** The calls a run makes after the loop: none if the loop stopped, else the finish report and, if there are matches, the write. */
  function Tail(kw: string, w: Walked, progress: bool): seq<Event>
  {
    if w.stop.Some? then [] else FinishEvents(progress) + (if w.matches == [] then [] else [WriteCall(kw, w.matches)])
  }

  /**
   * The calls of a run that passes validation: the start report, the loop's
   * calls, then the tail. The disk is changed only when the writer is called.
   */
  lemma RunShape(paths: seq<string>, keyword: string, env: Env, dirs: set<string>, files: map<string, string>)
    requires env.Valid() && paths != [] && Strip(keyword) != []
    ensures var kw := Strip(keyword);
      var w, run := Walk(paths, 0, kw, env), Run(paths, keyword, env, dirs, files);
      run.events == StartEvents(kw, env.progress) + w.events + Tail(kw, w, env.progress)
      && (w.stop.Some? ==> run.outcome == Err(w.stop.value))
      && (w.stop.None? && w.matches == [] ==> run.outcome == Ok(NoMatchSummary(kw)))
      && (w.stop.Some? || w.matches == [] ==> run.dirs == dirs && run.files == files)
  {
    var kw := Strip(keyword);
    var w := Walk(paths, 0, kw, env);
    var before := StartEvents(kw, env.progress) + w.events;
    if w.stop.None? && w.matches != [] {
      AppendAssoc(before, FinishEvents(env.progress), [WriteCall(kw, w.matches)]);
    }
  }

  /** Only the tail's last call can be a write, and it is one exactly when the loop finished with matches. */
  lemma TailWrites(kw: string, w: Walked, progress: bool)
    ensures var t := Tail(kw, w, progress);
      Writes(t) == (if w.stop.None? && w.matches != [] then [WriteCall(kw, w.matches)] else [])
      && (Writes(t) != [] ==> t[|t| - 1] == WriteCall(kw, w.matches))
      && Percents(t) == (if w.stop.None? && progress then [100] else [])
  {
    if w.stop.None? {
      var writes: seq<Event> := if w.matches == [] then [] else [WriteCall(kw, w.matches)];
      WritesAppend(FinishEvents(progress), writes);
      PercentsAppend(FinishEvents(progress), writes);
      assert Writes(writes) == writes;
    }
  }

  /** The tail loads nothing. */
  lemma TailLoads(kw: string, w: Walked, progress: bool)
    ensures Loaded(Tail(kw, w, progress)) == []
  {
    if w.stop.None? {
      LoadedAppend(FinishEvents(progress), if w.matches == [] then [] else [WriteCall(kw, w.matches)]);
    }
  }

  /**
   * A run that reads every file makes these calls: the start report, one
   * report and one load per path in order, the finish report, and the write
   * of the matches of all files in path order exactly when there are any.
   */
  lemma RunCompletesCalls(paths: seq<string>, keyword: string, env: Env, dirs: set<string>, files: map<string, string>,
                          loaded: seq<seq<string>>)
    requires env.Valid() && paths != [] && !AllSpace(keyword) && |loaded| == |paths|
    requires forall j :: 0 <= j < |paths| ==> ReadsAs(paths, j, env, loaded[j])
    ensures var kw, run := Strip(keyword), Run(paths, keyword, env, dirs, files);
      var m := FilterLines(Flatten(loaded), kw, env.lower);
      run.events == StartEvents(kw, env.progress) + FileEvents(paths, 0, env.progress) + FinishEvents(env.progress)
                    + (if m == [] then [] else [WriteCall(kw, m)])
  {
    var kw := Strip(keyword);
    StripEmptyIff(keyword);
    RunShape(paths, keyword, env, dirs, files);
    WalkCompletesAll(paths, kw, env, loaded);
    ShapeCalls(kw, Walk(paths, 0, kw, env), env.progress);
  }

  /** When every file is read, the loop ends normally with the matches of all of them, in path order. */
  lemma WalkCompletesAll(paths: seq<string>, kw: string, env: Env, loaded: seq<seq<string>>)
    requires |loaded| == |paths|
    requires forall j :: 0 <= j < |paths| ==> ReadsAs(paths, j, env, loaded[j])
    ensures Walk(paths, 0, kw, env) ==
      Walked(FilterLines(Flatten(loaded), kw, env.lower), FileEvents(paths, 0, env.progress), None)
  {
    WalkCompletes(paths, 0, kw, env, loaded);
    assert loaded[0..] == loaded;
  }

  /** The calls of a run whose loop ended normally. */
  lemma ShapeCalls(kw: string, w: Walked, progress: bool)
    requires w.stop.None?
    ensures StartEvents(kw, progress) + w.events + Tail(kw, w, progress) ==
      StartEvents(kw, progress) + w.events + FinishEvents(progress) + (if w.matches == [] then [] else [WriteCall(kw, w.matches)])
  {
    var before := StartEvents(kw, progress) + w.events;
    if w.matches == [] {
      assert FinishEvents(progress) + [] == FinishEvents(progress);
    } else {
      AppendAssoc(before, FinishEvents(progress), [WriteCall(kw, w.matches)]);
    }
  }

  /** A run that reads every file loads each path exactly once, in order. */
  lemma RunCompletesLoads(paths: seq<string>, keyword: string, env: Env, dirs: set<string>, files: map<string, string>,
                          loaded: seq<seq<string>>)
    requires env.Valid() && paths != [] && !AllSpace(keyword) && |loaded| == |paths|
    requires forall j :: 0 <= j < |paths| ==> ReadsAs(paths, j, env, loaded[j])
    ensures Loaded(Run(paths, keyword, env, dirs, files).events) == paths
  {
    var kw := Strip(keyword);
    StripEmptyIff(keyword);
    var w := Walk(paths, 0, kw, env);
    var start, tail := StartEvents(kw, env.progress), Tail(kw, w, env.progress);
    RunShape(paths, keyword, env, dirs, files);
    WalkCompletesAll(paths, kw, env, loaded);
    FileEventsLoaded(paths, 0, env.progress);
    TailLoads(kw, w, env.progress);
    LoadedAppend(start, w.events);
    LoadedAppend(start + w.events, tail);
    assert Loaded(start) == [];
    SliceAll(paths);
  }

  /**
   * A run that reads every file ends with "No lines found" and an untouched
   * disk when nothing matched, and otherwise with what writing the matches of
   * all files, in path order, gives.
   */
  lemma RunCompletesOutcome(paths: seq<string>, keyword: string, env: Env, dirs: set<string>, files: map<string, string>,
                            loaded: seq<seq<string>>)
    requires env.Valid() && paths != [] && !AllSpace(keyword) && |loaded| == |paths|
    requires forall j :: 0 <= j < |paths| ==> ReadsAs(paths, j, env, loaded[j])
    ensures var kw, run := Strip(keyword), Run(paths, keyword, env, dirs, files);
      var m := FilterLines(Flatten(loaded), kw, env.lower);
      (m == [] ==> run.outcome == Ok(NoMatchSummary(kw)) && run.dirs == dirs && run.files == files)
      && (m != [] ==>
            var written := FileWriter.WriteResult(dirs, files, m, kw, env.today, env.now);
            run.outcome == Summary(written.result, |m|) && run.dirs == written.dirs && run.files == written.files)
  {
    StripEmptyIff(keyword);
    WalkCompletesAll(paths, Strip(keyword), env, loaded);
  }

  /**
   * A run that reaches file `k` and finds it cancelled or unreadable fails
   * with the matching error, has loaded exactly the files before it (and file
   * `k` itself when the load was what failed), and has neither called the
   * writer nor changed the disk.
   */
  lemma RunHalts(paths: seq<string>, keyword: string, env: Env, dirs: set<string>, files: map<string, string>, k: nat)
    requires env.Valid() && !AllSpace(keyword) && k < |paths|
    requires forall j :: 0 <= j < k ==> Reads(paths, j, env)
    requires env.cancelled(k) || FileLoader.Load(paths[k], env.open).Err?
    ensures var run := Run(paths, keyword, env, dirs, files);
      run.dirs == dirs && run.files == files && Writes(run.events) == []
      && (env.cancelled(k) ==> run.outcome == Err(CancelledMessage) && Loaded(run.events) == paths[..k])
      && (!env.cancelled(k) ==>
            run.outcome == Err(FileErrorMessage(paths[k], FileLoader.Load(paths[k], env.open).error.Message()))
            && Loaded(run.events) == paths[..k + 1])
    ensures var run := Run(paths, keyword, env, dirs, files);
      run.events == StartEvents(Strip(keyword), env.progress) + CallsTo(paths, 0, k, env.progress)
                    + (if env.cancelled(k) then [] else Calls(paths, k, env.progress))
  {
    var kw := Strip(keyword);
    StripEmptyIff(keyword);
    var w := Walk(paths, 0, kw, env);
    WalkHaltsWith(paths, 0, k, kw, env);
    WalkHaltsLoads(paths, 0, k, kw, env);
    WalkHaltsCalls(paths, 0, k, kw, env);
    WalkNeverWrites(paths, 0, kw, env);
    RunShape(paths, keyword, env, dirs, files);
    HaltedShape(kw, w, env.progress, CallsTo(paths, 0, k, env.progress),
                if env.cancelled(k) then [] else Calls(paths, k, env.progress));
    assert paths[0..k] == paths[..k] && paths[0..k + 1] == paths[..k + 1];
  }

  /** A run whose loop raised makes the start report and the loop's calls, and nothing after them. */
  lemma HaltedShape(kw: string, w: Walked, progress: bool, head: seq<Event>, last: seq<Event>)
    requires w.stop.Some? && w.events == head + last
    ensures var all := StartEvents(kw, progress) + w.events + Tail(kw, w, progress);
      all == StartEvents(kw, progress) + head + last
      && Loaded(all) == Loaded(w.events) && Writes(all) == Writes(w.events)
  {
    var start := StartEvents(kw, progress);
    assert start + w.events + [] == start + w.events;
    LoadedAppend(start, w.events);
    WritesAppend(start, w.events);
    AppendAssoc(start, head, last);
  }

  /**
   * Whatever happens, the progress percentages never decrease, stay within
   * 0..100, start at 0, and 100 is reported only as the last of them; without
   * a progress callback there are none.
   */
  lemma RunPercents(paths: seq<string>, keyword: string, env: Env, dirs: set<string>, files: map<string, string>)
    requires env.Valid()
    ensures var ps := Percents(Run(paths, keyword, env, dirs, files).events);
      Ascending(ps)
      && (forall a :: 0 <= a < |ps| ==> ps[a] <= 100 && (ps[a] == 100 ==> a == |ps| - 1))
      && (ps != [] ==> ps[0] == 0)
      && (!env.progress ==> ps == [])
  {
    var kw := Strip(keyword);
    if paths != [] && kw != [] {
      var w := Walk(paths, 0, kw, env);
      RunShape(paths, keyword, env, dirs, files);
      if env.progress {
        WalkPercents(paths, 0, kw, env);
        ClimbsLower(Percents(w.events), Percent(0, |paths|), 0, 99);
      } else {
        WalkSilent(paths, 0, kw, env);
      }
      ShapePercents(kw, w, env.progress);
    }
  }

  /** The progress reports of a run that passes validation, given those of its loop. */
  lemma ShapePercents(kw: string, w: Walked, progress: bool)
    requires progress ==> Climbs(Percents(w.events), 0, 99)
    requires !progress ==> Percents(w.events) == []
    ensures var ps := Percents(StartEvents(kw, progress) + w.events + Tail(kw, w, progress));
      Ascending(ps)
      && (forall a :: 0 <= a < |ps| ==> ps[a] <= 100 && (ps[a] == 100 ==> a == |ps| - 1))
      && (ps != [] ==> ps[0] == 0)
      && (!progress ==> ps == [])
  {
    var start, tail := StartEvents(kw, progress), Tail(kw, w, progress);
    TailWrites(kw, w, progress);
    PercentsAppend(start, w.events);
    PercentsAppend(start + w.events, tail);
    PercentProfile(Percents(start), Percents(w.events), Percents(tail));
  }

  /**
   * The shape of a run's progress reports: an optional 0, a climb that stays
   * below 100, then an optional 100.
   */
  lemma PercentProfile(p0: seq<nat>, p1: seq<nat>, p2: seq<nat>)
    requires (p0 == [0] && Climbs(p1, 0, 99)) || (p0 == [] && p1 == [] && p2 == [])
    requires p2 == [] || p2 == [100]
    ensures var ps := p0 + p1 + p2;
      Ascending(ps)
      && (forall a :: 0 <= a < |ps| ==> ps[a] <= 100 && (ps[a] == 100 ==> a == |ps| - 1))
      && (ps != [] ==> ps[0] == 0)
  {
    if p0 == [0] {
      assert (p0 + p1)[1..] == p1;
      assert Climbs(p0 + p1, 0, 99);
    }
    ClimbsAscending(p0 + p1, 0, 99);
    ClimbsAppend(p0 + p1, p2, 0, 99, 100);
    ClimbsAscending(p0 + p1 + p2, 0, 100);
    var ps := p0 + p1 + p2;
    forall a | 0 <= a < |ps| && ps[a] == 100 ensures a == |ps| - 1 {
      assert !(a < |p0 + p1|);
    }
  }

  /**
   * The writer is called at most once, and only as the very last call; a run
   * that does not call it leaves the disk as it found it.
   */
  lemma RunWritesOnce(paths: seq<string>, keyword: string, env: Env, dirs: set<string>, files: map<string, string>)
    requires env.Valid()
    ensures var run := Run(paths, keyword, env, dirs, files);
      var ws := Writes(run.events);
      |ws| <= 1
      && (ws != [] ==> ws[0] == run.events[|run.events| - 1])
      && (ws == [] ==> run.dirs == dirs && run.files == files)
  {
    var kw := Strip(keyword);
    if paths != [] && kw != [] {
      var w := Walk(paths, 0, kw, env);
      RunShape(paths, keyword, env, dirs, files);
      WalkNeverWrites(paths, 0, kw, env);
      ShapeWrites(kw, w, env.progress);
    }
  }

  /** The writes among the calls of a run that passes validation are the tail's. */
  lemma ShapeWrites(kw: string, w: Walked, progress: bool)
    requires Writes(w.events) == []
    ensures var all, tail := StartEvents(kw, progress) + w.events + Tail(kw, w, progress), Tail(kw, w, progress);
      Writes(all) == (if w.stop.None? && w.matches != [] then [WriteCall(kw, w.matches)] else [])
      && (Writes(all) != [] ==> all[|all| - 1] == WriteCall(kw, w.matches))
  {
    TailWrites(kw, w, progress);
    assert Writes(StartEvents(kw, progress)) == [];
    WriteProfile(StartEvents(kw, progress), w.events, Tail(kw, w, progress));
  }

  /** Calls before a tail that writes at most once, and only last, add no writes of their own. */
  lemma WriteProfile(start: seq<Event>, loop: seq<Event>, tail: seq<Event>)
    requires Writes(start) == [] && Writes(loop) == []
    requires |Writes(tail)| <= 1 && (Writes(tail) != [] ==> tail[|tail| - 1] == Writes(tail)[0])
    ensures var all := start + loop + tail;
      Writes(all) == Writes(tail)
      && (Writes(tail) != [] ==> all[|all| - 1] == Writes(tail)[0])
  {
    WritesAppend(start, loop);
    WritesAppend(start + loop, tail);
    if Writes(tail) != [] {
      assert (start + loop + tail)[|start + loop + tail| - 1] == tail[|tail| - 1];
    }
  }

  /**
   * When there are matches and nothing on disk stands in the way, the run
   * reports how many lines it found and the bare name of the file it saved
   * them to, and that file holds exactly the matched lines.
   */
  lemma RunSavesMatches(paths: seq<string>, keyword: string, env: Env, dirs: set<string>, files: map<string, string>,
                        loaded: seq<seq<string>>)
    requires env.Valid() && paths != [] && !AllSpace(keyword) && |loaded| == |paths|
    requires forall j :: 0 <= j < |paths| ==> ReadsAs(paths, j, env, loaded[j])
    requires FilterLines(Flatten(loaded), Strip(keyword), env.lower) != []
    requires FileWriter.OutputDir !in files && FileWriter.LogFile !in dirs
    requires FileWriter.OutputPath(FileWriter.ResultFileName(env.today, Strip(keyword))) !in dirs
    requires '/' !in keyword
    ensures var kw, run := Strip(keyword), Run(paths, keyword, env, dirs, files);
      var m, name := FilterLines(Flatten(loaded), kw, env.lower), FileWriter.ResultFileName(env.today, kw);
      run.outcome == Ok(FoundSummary(|m|, name))
      && FileWriter.OutputPath(name) in run.files && run.files[FileWriter.OutputPath(name)] == Flatten(m)
  {
    var kw := Strip(keyword);
    var m := FilterLines(Flatten(loaded), kw, env.lower);
    RunCompletesOutcome(paths, keyword, env, dirs, files, loaded);
    StripLacks(keyword, '/');
    FileWriter.WriteResultSucceeds(dirs, files, m, kw, env.today, env.now);
    FileWriter.WriteResultOutput(dirs, files, m, kw, env.today, env.now);
  }
}
