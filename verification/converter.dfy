/** `QshConverter` itself: its configuration, the per-file task body of
    `ConvertPart`, and `Convert(List<string>)`. The per-file `Task`s of one
    batch run in parallel; besides the storage object and the timeframe
    list, which they only use, they share the progress counter, which they
    update under a lock. The model runs them one after the other in list
    order. */
module Converter {
  import opened Wrappers
  import opened QshTypes
  import opened FileSelection
  import opened Readers
  import opened Dispatch
  import opened ProgressTracker

  /** The converter's fields that the conversion reads or writes (the
      storage root and the run's start time are left out). */
  datatype QshConverter = QshConverter(kind: SourceDataType, timeFrames: seq<TimeFrame>, progress: ProgressState)

  /** A converter as the constructor leaves it: no timeframes, counters at
      zero. */
  function NewConverter(kind: SourceDataType): (c: QshConverter)
    ensures c.kind == kind && c.timeFrames == [] && c.progress.count == 0 && c.progress.percent == 0
  {
    QshConverter(kind, [], Fresh())
  }

  /** `AddTimeFrames` replaces the whole timeframe list and nothing else. */
  function AddTimeFrames(c: QshConverter, timeFrames: seq<TimeFrame>): (r: QshConverter)
    ensures r.timeFrames == timeFrames
    ensures r.kind == c.kind && r.progress == c.progress
  {
    c.(timeFrames := timeFrames)
  }

  /** Everything outside the converter: the decoder's view of every path,
      the reconstructor, the index of the first storage call that throws
      for each path (if any), and `Path.GetFileNameWithoutExtension`. */
  datatype Environment = Environment(
    open: string -> QshFile,
    reconstruct: Reconstructor,
    saveFault: string -> Option<nat>,
    stemOf: string -> string)

  // ---------------------------------------------------------------------
  // One file
  // ---------------------------------------------------------------------

  /** The list of day lists built for one file: the order-log
      reader's lists, the deals reader's single list, or no list at all for
      any other kind. */
  function ReadFile(kind: SourceDataType, file: QshFile, reconstruct: Reconstructor): (r: Outcome<seq<seq<Trade>>>)
    ensures kind != SourceDataType.OrderLog && kind != SourceDataType.Deals ==> r == Ok([])
    ensures kind == SourceDataType.OrderLog ==> r == OrdLogReader(file, reconstruct)
    ensures kind == SourceDataType.Deals ==>
              (r.Ok? <==> !file.openFails) && (r.Ok? ==> r.value == [DealsReader(file).value])
  {
    match kind
    case OrderLog => OrdLogReader(file, reconstruct)
    case Deals =>
      (match DealsReader(file)
       case Ok(trades) => Ok([trades])
       case Failed => Failed)
    case _ => Ok([])
  }

  /** What one task does to storage, and whether it ends without an
      exception. */
  datatype FileResult = FileResult(calls: seq<StorageCall>, succeeded: bool)

  /** The storage part of the per-file `Task` body, given what reading the
      file gave and the index of the first storage call that throws, if any.
      An exception while reading means no storage call at all; an exception
      in the `k`-th storage call leaves the `k` calls before it made. */
  function StoreFile(read: Outcome<seq<seq<Trade>>>, fault: Option<nat>, timeFrames: seq<TimeFrame>): (r: FileResult)
    ensures read.Failed? ==> r == FileResult([], false)
    ensures read.Ok? ==>
              var planned := DispatchCalls(read.value, timeFrames);
              && r.calls <= planned
              && (r.succeeded <==> fault.None? || fault.value >= |planned|)
              && (r.succeeded ==> r.calls == planned)
              && (!r.succeeded ==> |r.calls| == fault.value)
  {
    match read
    case Failed => FileResult([], false)
    case Ok(parts) =>
      var planned := DispatchCalls(parts, timeFrames);
      match fault
      case None => FileResult(planned, true)
      case Some(k) =>
        if k < |planned| then FileResult(planned[..k], false) else FileResult(planned, true)
  }

  /** Every element of a prefix is an element of the whole. */
  lemma PrefixMembers<T>(a: seq<T>, b: seq<T>)
    requires a <= b
    ensures forall x :: x in a ==> x in b
  {
    forall x | x in a
      ensures x in b
    {
      var k :| 0 <= k < |a| && a[k] == x;
      assert b[k] == x;
    }
  }

  /** The per-file `Task` body for one path, up to (not including) the
      progress update. */
  function ConvertFile(c: QshConverter, env: Environment, path: string): (r: FileResult)
    // a run of any other kind than order logs or deals reads nothing,
    // stores nothing and never throws
    ensures c.kind != SourceDataType.OrderLog && c.kind != SourceDataType.Deals ==> r == FileResult([], true)
    // a file the decoder cannot open makes no storage call and throws
    ensures (c.kind == SourceDataType.OrderLog || c.kind == SourceDataType.Deals) && env.open(path).openFails ==>
              r == FileResult([], false)
    // every call made saves a list of more than one trade, keyed by the
    // instrument of its first trade
    ensures forall call :: call in r.calls ==> |call.trades| > 1 && call.security == call.trades[0].security
    // the task succeeds exactly when reading succeeds and no planned storage
    // call throws; the calls made are a prefix of the plan, and all of it
    // on success
    ensures var read := ReadFile(c.kind, env.open(path), env.reconstruct);
            var fault := env.saveFault(path);
            && (r.succeeded <==> read.Ok? && (fault.None? || fault.value >= |DispatchCalls(read.value, c.timeFrames)|))
            && (read.Ok? ==> r.calls <= DispatchCalls(read.value, c.timeFrames))
            && (r.succeeded ==> r.calls == DispatchCalls(read.value, c.timeFrames))
  {
    var read := ReadFile(c.kind, env.open(path), env.reconstruct);
    var r := StoreFile(read, env.saveFault(path), c.timeFrames);
    if read.Ok? then
      DispatchCallsKeyedByFirstTrade(read.value, c.timeFrames);
      PrefixMembers(r.calls, DispatchCalls(read.value, c.timeFrames));
      r
    else r
  }

  // ---------------------------------------------------------------------
  // Runs
  // ---------------------------------------------------------------------

  /** What the run tells the outside world, in order. */
  datatype Notice =
    | Stored(call: StorageCall)
    | ProgressShown(percent: int)
    | FileError(path: string)
    | TrackerErrorShown

  datatype RunState = RunState(converter: QshConverter, notices: seq<Notice>)

  function StoredNotices(calls: seq<StorageCall>): (ns: seq<Notice>)
    ensures |ns| == |calls| && forall k :: 0 <= k < |ns| ==> ns[k] == Stored(calls[k])
  {
    seq(|calls|, k requires 0 <= k < |calls| => Stored(calls[k]))
  }

  function ReportNotices(report: Report): seq<Notice>
  {
    match report
    case Silent => []
    case Percent(p) => [ProgressShown(p)]
    case TrackerError => [TrackerErrorShown]
  }

  /** One whole task: the file's storage calls, then either the progress
      update (only when nothing threw) or the file's error report. */
  function RunFile(st: RunState, env: Environment, path: string): (r: RunState)
    ensures r.converter.kind == st.converter.kind && r.converter.timeFrames == st.converter.timeFrames
    ensures ConvertFile(st.converter, env, path).succeeded ==>
              r.converter.progress == Progress(st.converter.progress).state
              && r.notices == st.notices + StoredNotices(ConvertFile(st.converter, env, path).calls)
                                         + ReportNotices(Progress(st.converter.progress).report)
    ensures !ConvertFile(st.converter, env, path).succeeded ==>
              r.converter == st.converter
              && r.notices == st.notices + StoredNotices(ConvertFile(st.converter, env, path).calls) + [FileError(path)]
  {
    var fr := ConvertFile(st.converter, env, path);
    if fr.succeeded then
      var step := Progress(st.converter.progress);
      RunState(st.converter.(progress := step.state),
               st.notices + StoredNotices(fr.calls) + ReportNotices(step.report))
    else
      RunState(st.converter, st.notices + StoredNotices(fr.calls) + [FileError(path)])
  }

  /** The per-file work for `files`, one file after the other. */
  function RunFiles(st: RunState, env: Environment, files: seq<string>): (r: RunState)
    // a run keeps the configuration and the total
    ensures r.converter.kind == st.converter.kind
    ensures r.converter.timeFrames == st.converter.timeFrames
    ensures r.converter.progress.total == st.converter.progress.total
    // notices are only ever appended
    ensures st.notices <= r.notices
  {
    if |files| == 0 then st
    else RunFile(RunFiles(st, env, files[..|files| - 1]), env, files[|files| - 1])
  }

  /** Running two lists of files one after the other is running their
      concatenation, so cutting a list into batches changes nothing. */
  lemma {:induction false} RunFilesAppend(st: RunState, env: Environment, a: seq<string>, b: seq<string>)
    ensures RunFiles(st, env, a + b) == RunFiles(RunFiles(st, env, a), env, b)
    decreases |b|
  {
    if |b| == 0 {
      assert a + b == a;
    } else {
      var b' := b[..|b| - 1];
      assert (a + b)[..|a + b| - 1] == a + b';
      RunFilesAppend(st, env, a, b');
    }
  }

  /** One batch (`ConvertPart`): one task per file, taken in list order,
      each a `RunFile` from the state the previous one left. */
  method ConvertPart(st: RunState, env: Environment, batch: seq<string>) returns (r: RunState)
    ensures r == RunFiles(st, env, batch)
    ensures r.converter.kind == st.converter.kind && r.converter.timeFrames == st.converter.timeFrames
    ensures st.notices <= r.notices
  {
    r := st;
    for i := 0 to |batch|
      invariant r == RunFiles(st, env, batch[..i])
    {
      assert batch[..i + 1][..i] == batch[..i];
      r := RunFile(r, env, batch[i]);
    }
    assert batch[..|batch|] == batch;
  }

  /** `Convert(List<string>)`: keep the files of the configured kind, set
      the total, cut the list into batches and convert the batches in
      order. The count and the last shown percentage are not reset. */
  method Convert(c: QshConverter, env: Environment, files: seq<string>) returns (r: RunState)
    ensures r.converter.progress.total == |FilterFiles(c.kind, env.stemOf, files)|
    ensures r.converter.kind == c.kind && r.converter.timeFrames == c.timeFrames
    ensures var filtered := FilterFiles(c.kind, env.stemOf, files);
            r == RunFiles(RunState(c.(progress := c.progress.(total := |filtered|)), []), env, filtered)
  {
    var filtered: seq<string> := [];
    for i := 0 to |files|
      invariant filtered == FilterFiles(c.kind, env.stemOf, files[..i])
    {
      assert files[..i + 1][..i] == files[..i];
      if CheckFileName(c.kind, env.stemOf(files[i])) {
        filtered := filtered + [files[i]];
      }
    }
    assert files[..|files|] == files;
    var start := RunState(c.(progress := c.progress.(total := |filtered|)), []);
    var parts := SplitIntoParts(filtered);
    r := start;
    for p := 0 to |parts|
      invariant r == RunFiles(start, env, Flatten(parts[..p]))
    {
      assert parts[..p + 1][..p] == parts[..p];
      RunFilesAppend(start, env, Flatten(parts[..p]), parts[p]);
      r := ConvertPart(r, env, parts[p]);
    }
    assert parts[..|parts|] == parts;
  }

  /** Every file error among `ns` names a file of `files`. */
  predicate ErrorsOnlyFor(ns: seq<Notice>, files: seq<string>)
  {
    forall k :: 0 <= k < |ns| ==> ns[k].FileError? ==> ns[k].path in files
  }

  lemma ErrorsOnlyForAppend(a: seq<Notice>, b: seq<Notice>, files: seq<string>)
    requires ErrorsOnlyFor(a, files) && ErrorsOnlyFor(b, files)
    ensures ErrorsOnlyFor(a + b, files)
  {
    var ab := a + b;
    forall k | 0 <= k < |ab|
      ensures ab[k].FileError? ==> ab[k].path in files
    {
      if k < |a| {
        assert ab[k] == a[k];
      } else {
        assert ab[k] == b[k - |a|];
      }
    }
  }

  /** What one task appends to the notices: its storage calls, then its
      progress report or its file error. */
  function TaskNotices(calls: seq<StorageCall>, succeeded: bool, report: Report, path: string): seq<Notice>
  {
    StoredNotices(calls) + (if succeeded then ReportNotices(report) else [FileError(path)])
  }

  lemma RunFileAppends(st: RunState, env: Environment, path: string)
    ensures var fr := ConvertFile(st.converter, env, path);
            var ns := RunFile(st, env, path).notices;
            && ns == st.notices + ns[|st.notices|..]
            && ns[|st.notices|..] == TaskNotices(fr.calls, fr.succeeded, Progress(st.converter.progress).report, path)
  {
    var fr := ConvertFile(st.converter, env, path);
    var tail := TaskNotices(fr.calls, fr.succeeded, Progress(st.converter.progress).report, path);
    var ns := RunFile(st, env, path).notices;
    assert ns == st.notices + tail;
  }

  lemma TaskNoticesErrorsOnlyFor(calls: seq<StorageCall>, succeeded: bool, report: Report, path: string)
    ensures ErrorsOnlyFor(TaskNotices(calls, succeeded, report, path), [path])
  {
    var stored := StoredNotices(calls);
    var tail := if succeeded then ReportNotices(report) else [FileError(path)];
    assert ErrorsOnlyFor(stored, [path]);
    assert ErrorsOnlyFor(tail, [path]);
    ErrorsOnlyForAppend(stored, tail, [path]);
  }

  /** The only exception one task reports is its own file's. */
  lemma RunFileReportsOnlyItsFile(st: RunState, env: Environment, path: string)
    ensures RunFile(st, env, path).notices == st.notices + RunFile(st, env, path).notices[|st.notices|..]
    ensures ErrorsOnlyFor(RunFile(st, env, path).notices[|st.notices|..], [path])
  {
    var fr := ConvertFile(st.converter, env, path);
    RunFileAppends(st, env, path);
    TaskNoticesErrorsOnlyFor(fr.calls, fr.succeeded, Progress(st.converter.progress).report, path);
  }

  /** A run reports an exception only for one of its own files. */
  lemma {:induction false} RunFilesReportsOnlyItsFiles(st: RunState, env: Environment, files: seq<string>)
    ensures ErrorsOnlyFor(RunFiles(st, env, files).notices[|st.notices|..], files)
    decreases |files|
  {
    var r := RunFiles(st, env, files);
    if |files| == 0 {
      assert r.notices[|st.notices|..] == [];
    } else {
      var init := files[..|files| - 1];
      var path := files[|files| - 1];
      var mid := RunFiles(st, env, init);
      assert r == RunFile(mid, env, path);
      RunFilesReportsOnlyItsFiles(st, env, init);
      RunFileReportsOnlyItsFile(mid, env, path);
      var before := mid.notices[|st.notices|..];
      var after := r.notices[|mid.notices|..];
      WidenErrors(before, init, files);
      WidenErrors(after, [path], files);
      ErrorsOnlyForAppend(before, after, files);
      SliceSplit(st.notices, mid.notices, r.notices);
    }
  }

  lemma SliceSplit<T>(a: seq<T>, b: seq<T>, c: seq<T>)
    requires a <= b && b <= c
    ensures c[|a|..] == b[|a|..] + c[|b|..]
  {
  }

  lemma WidenErrors(ns: seq<Notice>, some: seq<string>, files: seq<string>)
    requires ErrorsOnlyFor(ns, some)
    requires forall f :: f in some ==> f in files
    ensures ErrorsOnlyFor(ns, files)
  {
  }

  // ---------------------------------------------------------------------
  // Progress over a run
  // ---------------------------------------------------------------------

  /** The number of files among `files` whose task ends without an
      exception. */
  function Successes(c: QshConverter, env: Environment, files: seq<string>): (n: nat)
    ensures n <= |files|
  {
    if |files| == 0 then 0
    else
      var last := files[|files| - 1];
      Successes(c, env, files[..|files| - 1]) + (if ConvertFile(c, env, last).succeeded then 1 else 0)
  }

  /** The number of file errors among `ns`. */
  function ErrorCount(ns: seq<Notice>): nat
  {
    if |ns| == 0 then 0
    else ErrorCount(ns[..|ns| - 1]) + (if ns[|ns| - 1].FileError? then 1 else 0)
  }

  lemma {:induction false} ErrorCountAppend(a: seq<Notice>, b: seq<Notice>)
    ensures ErrorCount(a + b) == ErrorCount(a) + ErrorCount(b)
    decreases |b|
  {
    if |b| == 0 {
      assert a + b == a;
    } else {
      var b' := b[..|b| - 1];
      assert (a + b)[..|a + b| - 1] == a + b';
      ErrorCountAppend(a, b');
    }
  }

  lemma {:induction false} NoErrorsWhileStoring(calls: seq<StorageCall>)
    ensures ErrorCount(StoredNotices(calls)) == 0
    decreases |calls|
  {
    if |calls| > 0 {
      var ns := StoredNotices(calls);
      var init := calls[..|calls| - 1];
      NoErrorsWhileStoring(init);
      assert ns[..|ns| - 1] == StoredNotices(init);
    }
  }

  lemma TailErrorCount(report: Report, path: string)
    ensures ErrorCount(ReportNotices(report)) == 0
    ensures ErrorCount([FileError(path)]) == 1
  {
    var one: seq<Notice> := [FileError(path)];
    assert one[..0] == [];
    match report
    case Silent =>
    case Percent(p) =>
      var ns: seq<Notice> := [ProgressShown(p)];
      assert ns[..0] == [];
    case TrackerError =>
      var ns: seq<Notice> := [TrackerErrorShown];
      assert ns[..0] == [];
  }

  /** A task reports one file error when it fails and none when it
      succeeds. */
  lemma RunFileErrorCount(st: RunState, env: Environment, path: string)
    ensures ErrorCount(RunFile(st, env, path).notices[|st.notices|..]) ==
              if ConvertFile(st.converter, env, path).succeeded then 0 else 1
  {
    var fr := ConvertFile(st.converter, env, path);
    RunFileAppends(st, env, path);
    TaskNoticesErrorCount(fr.calls, fr.succeeded, Progress(st.converter.progress).report, path);
  }

  lemma TaskNoticesErrorCount(calls: seq<StorageCall>, succeeded: bool, report: Report, path: string)
    ensures ErrorCount(TaskNotices(calls, succeeded, report, path)) == if succeeded then 0 else 1
  {
    var tail := if succeeded then ReportNotices(report) else [FileError(path)];
    NoErrorsWhileStoring(calls);
    TailErrorCount(report, path);
    ErrorCountAppend(StoredNotices(calls), tail);
  }

  /** Conversely to `RunFilesReportsOnlyItsFiles`: a run reports exactly
      one file error per file whose task throws. */
  lemma {:induction false} RunFilesErrorCount(st: RunState, env: Environment, files: seq<string>)
    ensures ErrorCount(RunFiles(st, env, files).notices[|st.notices|..]) == |files| - Successes(st.converter, env, files)
    decreases |files|
  {
    var r := RunFiles(st, env, files);
    if |files| == 0 {
      assert r.notices[|st.notices|..] == [];
    } else {
      var init := files[..|files| - 1];
      var path := files[|files| - 1];
      var mid := RunFiles(st, env, init);
      assert r == RunFile(mid, env, path);
      RunFilesErrorCount(st, env, init);
      RunFileErrorCount(mid, env, path);
      assert ConvertFile(mid.converter, env, path) == ConvertFile(st.converter, env, path);
      var before := mid.notices[|st.notices|..];
      var after := r.notices[|mid.notices|..];
      ErrorCountAppend(before, after);
      SliceSplit(st.notices, mid.notices, r.notices);
    }
  }

  /** The percentages shown, in order. */
  function Shown(notices: seq<Notice>): seq<int>
  {
    if |notices| == 0 then []
    else
      var n := notices[|notices| - 1];
      Shown(notices[..|notices| - 1]) + (if n.ProgressShown? then [n.percent] else [])
  }

  lemma {:induction false} ShownAppend(a: seq<Notice>, b: seq<Notice>)
    ensures Shown(a + b) == Shown(a) + Shown(b)
    decreases |b|
  {
    if |b| == 0 {
      assert a + b == a;
    } else {
      var b' := b[..|b| - 1];
      assert (a + b)[..|a + b| - 1] == a + b';
      ShownAppend(a, b');
    }
  }

  lemma {:induction false} NothingShownWhileStoring(calls: seq<StorageCall>)
    ensures Shown(StoredNotices(calls)) == []
    ensures TrackerErrorShown !in StoredNotices(calls)
    decreases |calls|
  {
    if |calls| > 0 {
      var ns := StoredNotices(calls);
      var init := calls[..|calls| - 1];
      NothingShownWhileStoring(init);
      assert ns[..|ns| - 1] == StoredNotices(init);
    }
  }

  ghost predicate StrictlyIncreasing(ps: seq<int>)
  {
    forall i, j :: 0 <= i < j < |ps| ==> ps[i] < ps[j]
  }

  /** The percentage one task adds to what has been shown, if any. */
  function NewlyShown(st: RunState, env: Environment, path: string): seq<int>
  {
    var report := Progress(st.converter.progress).report;
    if ConvertFile(st.converter, env, path).succeeded && report.Percent? then [report.value] else []
  }

  /** Storage notices show nothing: what a task shows comes from what
      follows its storage calls. */
  lemma StoredThenShown(prefix: seq<Notice>, calls: seq<StorageCall>, tail: seq<Notice>)
    ensures Shown(prefix + StoredNotices(calls) + tail) == Shown(prefix) + Shown(tail)
    ensures TrackerErrorShown in prefix + StoredNotices(calls) + tail <==>
              TrackerErrorShown in prefix || TrackerErrorShown in tail
  {
    var stored := StoredNotices(calls);
    NothingShownWhileStoring(calls);
    ShownAfterNothing(prefix, stored, tail);
  }

  lemma ShownAfterNothing(prefix: seq<Notice>, mid: seq<Notice>, tail: seq<Notice>)
    requires Shown(mid) == []
    ensures Shown(prefix + mid + tail) == Shown(prefix) + Shown(tail)
  {
    var pm := prefix + mid;
    ShownAppend(prefix, mid);
    ShownAppend(pm, tail);
    var sp := Shown(prefix);
    assert sp + [] == sp;
  }

  lemma ReportShown(report: Report)
    ensures Shown(ReportNotices(report)) == (if report.Percent? then [report.value] else [])
    ensures TrackerErrorShown in ReportNotices(report) <==> report == TrackerError
  {
    match report
    case Silent =>
    case Percent(p) =>
      assert Shown([ProgressShown(p)]) == Shown([]) + [p];
    case TrackerError =>
      assert Shown([TrackerErrorShown]) == Shown([]) + [];
  }

  /** One task shows at most one percentage, and a tracker error appears
      only through a successful task's progress update. */
  lemma RunFileShown(st: RunState, env: Environment, path: string)
    ensures Shown(RunFile(st, env, path).notices) == Shown(st.notices) + NewlyShown(st, env, path)
    ensures TrackerErrorShown in RunFile(st, env, path).notices <==>
              TrackerErrorShown in st.notices
              || (ConvertFile(st.converter, env, path).succeeded
                  && Progress(st.converter.progress).report == TrackerError)
  {
    var fr := ConvertFile(st.converter, env, path);
    var report := Progress(st.converter.progress).report;
    if fr.succeeded {
      StoredThenShown(st.notices, fr.calls, ReportNotices(report));
      ReportShown(report);
    } else {
      StoredThenShown(st.notices, fr.calls, [FileError(path)]);
      assert Shown([FileError(path)]) == Shown([]) + [];
    }
  }

  /** The percentages `ps` shown so far agree with the counter `s`: the
      counter is consistent, and the percentages are positive and strictly
      increasing, the last of them (0 before any) being the stored one. */
  ghost predicate ShownMatches(ps: seq<int>, s: ProgressState)
  {
    && Consistent(s)
    && StrictlyIncreasing(ps)
    && (forall i :: 0 <= i < |ps| ==> ps[i] > 0)
    && (|ps| == 0 ==> s.percent == 0)
    && (|ps| > 0 ==> ps[|ps| - 1] == s.percent)
  }

  /** What has been shown agrees with the counter, and no tracker error
      has been shown. */
  ghost predicate ShownSoFar(st: RunState)
  {
    ShownMatches(Shown(st.notices), st.converter.progress) && TrackerErrorShown !in st.notices
  }

  /** A progress update below the total keeps the agreement. */
  lemma ProgressKeepsShownMatches(ps: seq<int>, s: ProgressState)
    requires ShownMatches(ps, s) && s.count < s.total
    ensures Progress(s).report != TrackerError
    ensures Progress(s).state.count == s.count + 1
    ensures ShownMatches(ps + (if Progress(s).report.Percent? then [Progress(s).report.value] else []), Progress(s).state)
  {
    ProgressKeepsConsistent(s);
    var report := Progress(s).report;
    if report.Percent? {
      var x := report.value;
      var qs := ps + [x];
      forall i, j | 0 <= i < j < |qs|
        ensures qs[i] < qs[j]
      {
        if j == |ps| && i < |ps| - 1 {
          assert ps[i] < ps[|ps| - 1];
        }
      }
    } else {
      assert ps + [] == ps;
    }
  }

  /** One task keeps `ShownSoFar`, and the count goes up exactly when the
      task succeeds. */
  lemma RunFileKeepsShown(st: RunState, env: Environment, path: string)
    requires ShownSoFar(st)
    requires ConvertFile(st.converter, env, path).succeeded ==>
               st.converter.progress.count < st.converter.progress.total
    ensures ShownSoFar(RunFile(st, env, path))
    ensures RunFile(st, env, path).converter.progress.count ==
              st.converter.progress.count + (if ConvertFile(st.converter, env, path).succeeded then 1 else 0)
  {
    RunFileShown(st, env, path);
    if ConvertFile(st.converter, env, path).succeeded {
      ProgressKeepsShownMatches(Shown(st.notices), st.converter.progress);
    } else {
      assert Shown(st.notices) + [] == Shown(st.notices);
    }
  }

  /** Over a run that never counts past the total, `ShownSoFar` holds
      throughout and the count grows by the number of successful files. */
  lemma {:induction false} RunFilesKeepsShown(st: RunState, env: Environment, files: seq<string>)
    requires ShownSoFar(st)
    requires st.converter.progress.count + Successes(st.converter, env, files) <= st.converter.progress.total
    ensures ShownSoFar(RunFiles(st, env, files))
    ensures RunFiles(st, env, files).converter.progress.count ==
              st.converter.progress.count + Successes(st.converter, env, files)
    decreases |files|
  {
    if |files| > 0 {
      var init := files[..|files| - 1];
      var path := files[|files| - 1];
      RunFilesKeepsShown(st, env, init);
      var mid := RunFiles(st, env, init);
      assert ConvertFile(mid.converter, env, path) == ConvertFile(st.converter, env, path);
      RunFileKeepsShown(mid, env, path);
    }
  }

  lemma {:induction false} SuccessesIgnoreProgress(c: QshConverter, p: ProgressState, env: Environment, files: seq<string>)
    ensures Successes(c.(progress := p), env, files) == Successes(c, env, files)
    decreases |files|
  {
    if |files| > 0 {
      SuccessesIgnoreProgress(c, p, env, files[..|files| - 1]);
    }
  }

  /** In a strictly increasing sequence nothing exceeds the last element. */
  lemma AtMostLast(ps: seq<int>)
    requires StrictlyIncreasing(ps) && |ps| > 0
    ensures forall i :: 0 <= i < |ps| ==> ps[i] <= ps[|ps| - 1]
  {
    forall i | 0 <= i < |ps|
      ensures ps[i] <= ps[|ps| - 1]
    {
      if i < |ps| - 1 {
        assert ps[i] < ps[|ps| - 1];
      }
    }
  }

  /** What `ShownSoFar` says about the percentages shown: they lie between
      1 and 100, and 100 is among them exactly when every file of the run
      has been counted. */
  lemma ShownSoFarBounds(st: RunState)
    requires ShownSoFar(st)
    ensures forall i :: 0 <= i < |Shown(st.notices)| ==> 1 <= Shown(st.notices)[i] <= 100
    ensures 100 in Shown(st.notices) <==> st.converter.progress.count == st.converter.progress.total
  {
    var ps := Shown(st.notices);
    var s := st.converter.progress;
    PercentBounds(s.count, s.total);
    if |ps| > 0 {
      AtMostLast(ps);
    }
  }

  /** The progress a new converter shows over one run of `files`: the
      shown percentages strictly increase, lie between 1 and 100, the count
      ends at the number of files converted without an exception, no
      tracker error occurs, and 100% is shown exactly when every file of
      the run converted without an exception. */
  lemma ConvertProgress(kind: SourceDataType, timeFrames: seq<TimeFrame>, env: Environment, files: seq<string>)
    requires 0 < |FilterFiles(kind, env.stemOf, files)| <= MaxSafeTotal
    ensures var c := AddTimeFrames(NewConverter(kind), timeFrames);
            var filtered := FilterFiles(kind, env.stemOf, files);
            var r := RunFiles(RunState(c.(progress := c.progress.(total := |filtered|)), []), env, filtered);
            var ps := Shown(r.notices);
            && StrictlyIncreasing(ps)
            && (forall i :: 0 <= i < |ps| ==> 1 <= ps[i] <= 100)
            && r.converter.progress.count == Successes(c, env, filtered)
            && TrackerErrorShown !in r.notices
            && (100 in ps <==> Successes(c, env, filtered) == |filtered|)
  {
    var c := AddTimeFrames(NewConverter(kind), timeFrames);
    var filtered := FilterFiles(kind, env.stemOf, files);
    var start := RunState(c.(progress := c.progress.(total := |filtered|)), []);
    StartShownSoFar(start);
    RunShows(start, env, filtered);
    SuccessesIgnoreProgress(c, start.converter.progress, env, filtered);
  }

  /** A run of `files` from zero with `|files|` as the total. */
  lemma RunShows(st: RunState, env: Environment, files: seq<string>)
    requires ShownSoFar(st)
    requires st.converter.progress.count == 0 && st.converter.progress.total == |files|
    ensures var r := RunFiles(st, env, files);
            var ps := Shown(r.notices);
            && StrictlyIncreasing(ps)
            && (forall i :: 0 <= i < |ps| ==> 1 <= ps[i] <= 100)
            && r.converter.progress.count == Successes(st.converter, env, files)
            && TrackerErrorShown !in r.notices
            && (100 in ps <==> Successes(st.converter, env, files) == |files|)
  {
    var r := RunFiles(st, env, files);
    RunFilesKeepsShown(st, env, files);
    ShownSoFarBounds(r);
  }

  lemma StartShownSoFar(st: RunState)
    requires st.notices == [] && st.converter.progress.count == 0 && st.converter.progress.percent == 0
    requires 0 < st.converter.progress.total <= MaxSafeTotal
    ensures ShownSoFar(st)
  {
    FreshIsConsistent(st.converter.progress.total);
    assert st.converter.progress == Fresh().(total := st.converter.progress.total);
    assert Shown([]) == [];
  }
}
