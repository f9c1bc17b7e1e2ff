/** The library's logger: named message types mapped to numeric levels, a
    console threshold and a log-file threshold, and the choice of a log file
    name that does not clobber an existing one. What reaches the console or the
    file is recorded as a sequence of lines; prefixes (timestamp, colours) are
    not part of the model. */
module Logging {
  import opened PyText

  /** The first argument of `log`: a type name or a bare level number. */
  datatype LogType = Named(typeName: string) | Level(level: int)

  datatype Line = Line(logType: LogType, message: string)

  /** `_get_log_level`. */
  function LogLevelOf(t: LogType): (level: int)
    ensures t.Named? ==> 1 <= level <= 5
    ensures t.Level? ==> level == t.level
  {
    match t
    case Level(n) => n
    case Named(s) =>
      if s == "info" then 1
      else if s == "warning" then 2
      else if s == "error" then 3
      else if s == "critical" then 4
      else 5
  }

  lemma NamedLevels(s: string)
    ensures LogLevelOf(Named("info")) == 1 && LogLevelOf(Named("warning")) == 2
    ensures LogLevelOf(Named("error")) == 3 && LogLevelOf(Named("critical")) == 4
    ensures LogLevelOf(Named("debug")) == 5
    ensures s !in {"info", "warning", "error", "critical"} ==> LogLevelOf(Named(s)) == 5
  {
  }

  /** The console gate in `log`. */
  predicate PrintsAt(doPrint: bool, level: int, logLevel: int) {
    doPrint && level <= logLevel
  }

  /** The file gate in `log`: a log file must be set (a non-empty path). */
  predicate SavesAt(doSave: bool, logFile: Option<string>, level: int, logFileLogLevel: int) {
    doSave && TextTruthy(logFile) && level <= logFileLogLevel
  }

  /** With console level 0 no named message type reaches the console. */
  lemma LevelZeroPrintsNoNamedType(s: string, doPrint: bool)
    ensures !PrintsAt(doPrint, LogLevelOf(Named(s)), 0)
  {
  }

  /** The default console level 4 shows critical messages and hides debug ones. */
  lemma DefaultLevelShowsCriticalHidesDebug()
    ensures PrintsAt(true, LogLevelOf(Named("critical")), 4)
    ensures !PrintsAt(true, LogLevelOf(Named("debug")), 4)
  {
  }

  /** The candidate names `_get_log_file_path` tries: "<base>.log", then "<base> 1.log", "<base> 2.log", ... */
  function LogFileName(base: string, counter: nat): string {
    if counter == 0 then base + ".log" else base + " " + NatText(counter) + ".log"
  }

  /** `os.path.join(folder, name)`, for a name that is not an absolute path: an
      empty folder adds nothing, and a separator is added only when missing. */
  function Join(folder: string, name: string): string {
    if |folder| == 0 || folder[|folder| - 1] == '/' then folder + name else folder + "/" + name
  }

  lemma {:induction false} LogFileNamesDistinct(base: string, i: nat, j: nat)
    requires i != j
    ensures LogFileName(base, i) != LogFileName(base, j)
  {
    var a, b := LogFileName(base, i), LogFileName(base, j);
    if i > 0 && j > 0 && |a| == |b| {
      assert a[|base| + 1..|a| - 4] == NatText(i);
      assert b[|base| + 1..|b| - 4] == NatText(j);
      ParseNatText(i);
      ParseNatText(j);
    }
  }

  lemma JoinInjective(folder: string, x: string, y: string)
    requires x != y
    ensures Join(folder, x) != Join(folder, y)
  {
    var p := if |folder| == 0 || folder[|folder| - 1] == '/' then folder else folder + "/";
    assert Join(folder, x) == p + x && Join(folder, y) == p + y;
    assert (p + x)[|p|..] == x && (p + y)[|p|..] == y;
  }

  lemma {:induction false} SubsetNoLarger<T>(a: set<T>, b: set<T>)
    requires a <= b
    ensures |a| <= |b|
  {
    if a != {} {
      var x :| x in a;
      SubsetNoLarger(a - {x}, b - {x});
    }
  }

  /** The path of the `counter`-th candidate log file. */
  function Candidate(folder: string, base: string, counter: nat): string {
    Join(folder, LogFileName(base, counter))
  }

  lemma CandidatesDistinct(folder: string, base: string, i: nat, j: nat)
    requires i != j
    ensures Candidate(folder, base, i) != Candidate(folder, base, j)
  {
    LogFileNamesDistinct(base, i, j);
    JoinInjective(folder, LogFileName(base, i), LogFileName(base, j));
  }

  /** The first `n` candidate paths. */
  function Candidates(folder: string, base: string, n: nat): set<string> {
    if n == 0 then {} else Candidates(folder, base, n - 1) + {Candidate(folder, base, n - 1)}
  }

  lemma {:induction false} CandidatesContain(folder: string, base: string, n: nat, j: nat)
    requires j < n
    ensures Candidate(folder, base, j) in Candidates(folder, base, n)
  {
    if j < n - 1 {
      CandidatesContain(folder, base, n - 1, j);
    }
  }

  lemma {:induction false} LaterCandidateIsNew(folder: string, base: string, n: nat, m: nat)
    requires n <= m
    ensures Candidate(folder, base, m) !in Candidates(folder, base, n)
  {
    if n > 0 {
      LaterCandidateIsNew(folder, base, n - 1, m);
      CandidatesDistinct(folder, base, n - 1, m);
    }
  }

  lemma {:induction false} CandidatesSize(folder: string, base: string, n: nat)
    ensures |Candidates(folder, base, n)| == n
  {
    if n > 0 {
      CandidatesSize(folder, base, n - 1);
      LaterCandidateIsNew(folder, base, n - 1, n - 1);
    }
  }

  /** `_get_log_file_path`: the first candidate path that does not exist yet.
      `existing` is the set of paths present on disk; `stamp` is the formatted time. */
  method FirstFreeLogFile(name: string, stamp: string, folder: string, existing: set<string>) returns (logFile: string)
    ensures logFile !in existing
    ensures exists k: nat :: (logFile == Candidate(folder, name + " " + stamp, k)
      && forall j: nat :: j < k ==> Candidate(folder, name + " " + stamp, j) in existing)
  {
    var base := name + " " + stamp;
    logFile := Join(folder, base + ".log");
    var counter: nat := 1;
    while logFile in existing
      invariant logFile == Candidate(folder, base, counter - 1)
      invariant Candidates(folder, base, counter - 1) <= existing
      decreases |existing| - (counter - 1)
    {
      CandidatesSize(folder, base, counter);
      SubsetNoLarger(Candidates(folder, base, counter), existing);
      logFile := Join(folder, base + " " + NatText(counter) + ".log");
      counter := counter + 1;
    }
    forall j: nat | j < counter - 1 ensures Candidate(folder, base, j) in existing {
      CandidatesContain(folder, base, counter - 1, j);
    }
  }

  class Logger {
    const name: string
    const logsFolder: Option<string>
    var logFile: Option<string>
    var logLevel: int
    var logFileLogLevel: int
    /** Lines written to the console and to the log file, oldest first. */
    var printed: seq<Line>
    var saved: seq<Line>

    /** `Logger(name, logs_folder, log_level=..., log_file_log_level=...)`: a log file is
        chosen only when `logs_folder` is a non-empty string. */
    constructor (name: string, logsFolder: Option<string>, logLevel: int, logFileLogLevel: int,
                 stamp: string, existing: set<string>)
      ensures this.name == name && this.logsFolder == logsFolder
      ensures this.logLevel == logLevel && this.logFileLogLevel == logFileLogLevel
      ensures TextTruthy(logsFolder) <==> logFile.Some?
      ensures logFile.Some? ==> logFile.value !in existing
      ensures logFile.Some? ==> exists k: nat :: (logFile.value == Candidate(logsFolder.value, name + " " + stamp, k)
        && forall j: nat :: j < k ==> Candidate(logsFolder.value, name + " " + stamp, j) in existing)
      ensures printed == [] && saved == []
    {
      this.name := name;
      this.logsFolder := logsFolder;
      this.logLevel := logLevel;
      this.logFileLogLevel := logFileLogLevel;
      if TextTruthy(logsFolder) {
        var path := FirstFreeLogFile(name, stamp, logsFolder.value, existing);
        logFile := Some(path);
      } else {
        logFile := None;
      }
      printed := [];
      saved := [];
    }

    /** `log(log_type, message, do_print=..., do_save=...)`. */
    method Log(logType: LogType, message: string, doPrint: bool, doSave: bool)
      modifies this`printed, this`saved
      ensures printed == old(printed) + (if PrintsAt(doPrint, LogLevelOf(logType), logLevel) then [Line(logType, message)] else [])
      ensures saved == old(saved) + (if SavesAt(doSave, logFile, LogLevelOf(logType), logFileLogLevel) then [Line(logType, message)] else [])
    {
      var level := LogLevelOf(logType);
      if doPrint && level <= logLevel {
        printed := printed + [Line(logType, message)];
      }
      if doSave && TextTruthy(logFile) && level <= logFileLogLevel {
        saved := saved + [Line(logType, message)];
      }
    }

    method Info(message: string, doPrint: bool, doSave: bool)
      modifies this`printed, this`saved
      ensures printed == old(printed) + (if PrintsAt(doPrint, 1, logLevel) then [Line(Named("info"), message)] else [])
      ensures saved == old(saved) + (if SavesAt(doSave, logFile, 1, logFileLogLevel) then [Line(Named("info"), message)] else [])
    {
      Log(Named("info"), message, doPrint, doSave);
    }

    method Warning(message: string, doPrint: bool, doSave: bool)
      modifies this`printed, this`saved
      ensures printed == old(printed) + (if PrintsAt(doPrint, 2, logLevel) then [Line(Named("warning"), message)] else [])
      ensures saved == old(saved) + (if SavesAt(doSave, logFile, 2, logFileLogLevel) then [Line(Named("warning"), message)] else [])
    {
      Log(Named("warning"), message, doPrint, doSave);
    }

    /** `warn` is `warning` under another name. */
    method Warn(message: string, doPrint: bool, doSave: bool)
      modifies this`printed, this`saved
      ensures printed == old(printed) + (if PrintsAt(doPrint, 2, logLevel) then [Line(Named("warning"), message)] else [])
      ensures saved == old(saved) + (if SavesAt(doSave, logFile, 2, logFileLogLevel) then [Line(Named("warning"), message)] else [])
    {
      Warning(message, doPrint, doSave);
    }

    /** `error`: with an exception given, the current traceback text is appended to the message. */
    method Error(message: string, excInfo: bool, traceback: string, doPrint: bool, doSave: bool)
      modifies this`printed, this`saved
      ensures printed == old(printed) + (if PrintsAt(doPrint, 3, logLevel) then [Line(Named("error"), WithTraceback(message, excInfo, traceback))] else [])
      ensures saved == old(saved) + (if SavesAt(doSave, logFile, 3, logFileLogLevel) then [Line(Named("error"), WithTraceback(message, excInfo, traceback))] else [])
    {
      Log(Named("error"), WithTraceback(message, excInfo, traceback), doPrint, doSave);
    }

    method Err(message: string, excInfo: bool, traceback: string, doPrint: bool, doSave: bool)
      modifies this`printed, this`saved
      ensures printed == old(printed) + (if PrintsAt(doPrint, 3, logLevel) then [Line(Named("error"), WithTraceback(message, excInfo, traceback))] else [])
      ensures saved == old(saved) + (if SavesAt(doSave, logFile, 3, logFileLogLevel) then [Line(Named("error"), WithTraceback(message, excInfo, traceback))] else [])
    {
      Error(message, excInfo, traceback, doPrint, doSave);
    }

    method Critical(message: string, excInfo: bool, traceback: string, doPrint: bool, doSave: bool)
      modifies this`printed, this`saved
      ensures printed == old(printed) + (if PrintsAt(doPrint, 4, logLevel) then [Line(Named("critical"), WithTraceback(message, excInfo, traceback))] else [])
      ensures saved == old(saved) + (if SavesAt(doSave, logFile, 4, logFileLogLevel) then [Line(Named("critical"), WithTraceback(message, excInfo, traceback))] else [])
    {
      Log(Named("critical"), WithTraceback(message, excInfo, traceback), doPrint, doSave);
    }

    method Crit(message: string, excInfo: bool, traceback: string, doPrint: bool, doSave: bool)
      modifies this`printed, this`saved
      ensures printed == old(printed) + (if PrintsAt(doPrint, 4, logLevel) then [Line(Named("critical"), WithTraceback(message, excInfo, traceback))] else [])
      ensures saved == old(saved) + (if SavesAt(doSave, logFile, 4, logFileLogLevel) then [Line(Named("critical"), WithTraceback(message, excInfo, traceback))] else [])
    {
      Critical(message, excInfo, traceback, doPrint, doSave);
    }

    method Debug(message: string, doPrint: bool, doSave: bool)
      modifies this`printed, this`saved
      ensures printed == old(printed) + (if PrintsAt(doPrint, 5, logLevel) then [Line(Named("debug"), message)] else [])
      ensures saved == old(saved) + (if SavesAt(doSave, logFile, 5, logFileLogLevel) then [Line(Named("debug"), message)] else [])
    {
      Log(Named("debug"), message, doPrint, doSave);
    }
  }

  /** The message `error` and `critical` log: the traceback follows on a new line when an exception is given. */
  function WithTraceback(message: string, excInfo: bool, traceback: string): (m: string)
    ensures IsPrefix(message, m)
    ensures !excInfo ==> m == message
  {
    if excInfo then message + "\n" + traceback else message
  }
}
