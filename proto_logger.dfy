/** The prototype's logger: a fixed map from log type to level and a single
    threshold. Its prefix is computed from the clock, so it is an input here. */
module ProtoLogging {

  import opened PyText

  /** The code that ends every printed line (reset, then newline). */
  const LineEnd: string := "\U{1B}[0m\n"

  /** The level a log type is logged at: info 1, warn 2, error 3, fatal 4, anything else 5. */
  function LevelOf(logType: string): (level: nat)
    ensures 1 <= level <= 5
    ensures level == 5 <==> logType !in {"info", "warn", "error", "fatal"}
  {
    if logType == "info" then 1
    else if logType == "warn" then 2
    else if logType == "error" then 3
    else if logType == "fatal" then 4
    else 5
  }

  /** `log(log_type, message)`: the text printed, if any. */
  function Log(logLevel: int, logType: string, message: string, prefix: string): (printed: Option<string>)
    ensures printed.Some? <==> LevelOf(logType) <= logLevel
    ensures printed.Some? ==> printed.value == prefix + message + LineEnd
  {
    if LevelOf(logType) <= logLevel then Some(prefix + message + LineEnd) else None
  }

  function Info(logLevel: int, message: string, prefix: string): (printed: Option<string>)
    ensures printed == Log(logLevel, "info", message, prefix)
    ensures printed.Some? <==> 1 <= logLevel
  {
    Log(logLevel, "info", message, prefix)
  }

  function Warn(logLevel: int, message: string, prefix: string): (printed: Option<string>)
    ensures printed == Log(logLevel, "warn", message, prefix)
    ensures printed.Some? <==> 2 <= logLevel
  {
    Log(logLevel, "warn", message, prefix)
  }

  function Error(logLevel: int, message: string, prefix: string): (printed: Option<string>)
    ensures printed == Log(logLevel, "error", message, prefix)
    ensures printed.Some? <==> 3 <= logLevel
  {
    Log(logLevel, "error", message, prefix)
  }

  function Fatal(logLevel: int, message: string, prefix: string): (printed: Option<string>)
    ensures printed == Log(logLevel, "fatal", message, prefix)
    ensures printed.Some? <==> 4 <= logLevel
  {
    Log(logLevel, "fatal", message, prefix)
  }

  function Debug(logLevel: int, message: string, prefix: string): (printed: Option<string>)
    ensures printed == Log(logLevel, "debug", message, prefix)
    ensures printed.Some? <==> 5 <= logLevel
  {
    Log(logLevel, "debug", message, prefix)
  }

  /** The default level 4 shows fatal messages and hides debug ones. */
  lemma DefaultLevelShowsFatalHidesDebug(message: string, prefix: string)
    ensures Fatal(4, message, prefix).Some? && Debug(4, message, prefix).None?
  {
  }

  /** At level 0 nothing is printed, whatever the log type. */
  lemma LevelZeroPrintsNothing(logType: string, message: string, prefix: string)
    ensures Log(0, logType, message, prefix).None?
  {
  }

  /** Raising the threshold never hides a message that was shown. */
  lemma ThresholdIsMonotone(low: int, high: int, logType: string, message: string, prefix: string)
    requires low <= high
    ensures Log(low, logType, message, prefix).Some? ==> Log(high, logType, message, prefix).Some?
  {
  }
}
