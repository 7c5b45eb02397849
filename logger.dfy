/**
 * The level-gated console logger: four ordered levels, a mutable threshold,
 * a gate that drops every message below the threshold, and the total
 * level-to-name mapping used to label what is printed.
 *
 * The console is modelled as the sequence of entries printed so far; the
 * text of an entry is the format string (argument substitution, the
 * call-site prefix and the lock around the gate are not modelled).
 */
module Logger {

  /** A log level is a plain integer, so values outside the four named ones exist. */
  type LogLevel = int

  const Debug: LogLevel := 0
  const Info: LogLevel := 1
  const Warning: LogLevel := 2
  const Error: LogLevel := 3

  /** One of the four levels that have a name. */
  predicate IsNamedLevel(level: LogLevel) {
    Debug <= level <= Error
  }

  /** The label printed in front of a message; every other value reads "UNKNOWN". */
  function LevelToString(level: LogLevel): (name: string)
    ensures name == "UNKNOWN" <==> !IsNamedLevel(level)
    ensures level == Debug ==> name == "DEBUG"
    ensures level == Info ==> name == "INFO"
    ensures level == Warning ==> name == "WARNING"
    ensures level == Error ==> name == "ERROR"
  {
    match level
    case 0 => "DEBUG"
    case 1 => "INFO"
    case 2 => "WARNING"
    case 3 => "ERROR"
    case _ => "UNKNOWN"
  }

  /** The gate: a message is dropped when its level is below the threshold, so it passes exactly when the threshold does not exceed its level. */
  function ShouldEmit(level: LogLevel, threshold: LogLevel): (pass: bool)
    ensures pass <==> threshold <= level
  {
    !(level < threshold)
  }

  /** A line written to the console: its level, the tag derived from it, and the text. */
  datatype Entry = Entry(level: LogLevel, tag: string, text: string)

  /** What one call at `level` adds to the console when the threshold is `threshold`. */
  function Emitted(level: LogLevel, threshold: LogLevel, text: string): (out: seq<Entry>)
    ensures |out| <= 1
    ensures |out| == 1 <==> threshold <= level
    ensures forall e | e in out :: e == Entry(level, LevelToString(level), text)
  {
    if ShouldEmit(level, threshold) then [Entry(level, LevelToString(level), text)] else []
  }

  /** The four named levels are strictly ordered Debug < Info < Warning < Error. */
  lemma LevelsStrictlyOrdered()
    ensures Debug < Info < Warning < Error
  {
  }

  /** The four names are distinct, so a printed label identifies its level. */
  lemma LevelNamesDistinct(a: LogLevel, b: LogLevel)
    requires IsNamedLevel(a) && IsNamedLevel(b)
    ensures LevelToString(a) == LevelToString(b) <==> a == b
  {
  }

  /** At threshold Debug every named level is emitted. */
  lemma DebugThresholdEmitsAll(level: LogLevel)
    requires IsNamedLevel(level)
    ensures ShouldEmit(level, Debug)
  {
  }

  /** At threshold Error only Error is emitted among the named levels. */
  lemma ErrorThresholdEmitsOnlyError(level: LogLevel)
    requires IsNamedLevel(level)
    ensures ShouldEmit(level, Error) <==> level == Error
  {
  }

  /** The gate is monotone: raising the level of a message or lowering the threshold never drops it. */
  lemma ShouldEmitMonotone(level: LogLevel, level': LogLevel, threshold: LogLevel, threshold': LogLevel)
    requires ShouldEmit(level, threshold)
    requires level <= level' && threshold' <= threshold
    ensures ShouldEmit(level', threshold')
  {
  }

  /** The gate does not check that a level is named: a value above Error passes every named threshold and is labelled "UNKNOWN". */
  lemma UnnamedLevelAboveErrorIsEmitted(level: LogLevel, threshold: LogLevel, text: string)
    requires level > Error && IsNamedLevel(threshold)
    ensures Emitted(level, threshold, text) == [Entry(level, "UNKNOWN", text)]
  {
  }

  /** A logger printing to the console, with a threshold that can be changed at run time. */
  class ConsoleLogger {
    var logLevel: LogLevel
    var output: seq<Entry>

    /** A fresh logger with the given threshold and nothing printed yet. */
    constructor (logLevel: LogLevel)
      ensures this.logLevel == logLevel
      ensures output == []
    {
      this.logLevel := logLevel;
      output := [];
    }

    /** Makes the threshold exactly `level`; nothing already printed changes. */
    method SetLogLevel(level: LogLevel)
      modifies this
      ensures logLevel == level
      ensures output == old(output)
    {
      logLevel := level;
    }

    /** Prints `text` at `level` if the gate lets it through; otherwise returns without printing. */
    method Log(level: LogLevel, text: string)
      modifies this
      ensures logLevel == old(logLevel)
      ensures output == old(output) + Emitted(level, logLevel, text)
    {
      if level < logLevel {
        return;
      }
      output := output + [Entry(level, LevelToString(level), text)];
    }

    /** Logs at level Debug. */
    method Debugf(format: string)
      modifies this
      ensures logLevel == old(logLevel)
      ensures output == old(output) + Emitted(Debug, logLevel, format)
    {
      Log(Debug, format);
    }

    /** Logs at level Info. */
    method Infof(format: string)
      modifies this
      ensures logLevel == old(logLevel)
      ensures output == old(output) + Emitted(Info, logLevel, format)
    {
      Log(Info, format);
    }

    /** Logs at level Warning. */
    method Warnf(format: string)
      modifies this
      ensures logLevel == old(logLevel)
      ensures output == old(output) + Emitted(Warning, logLevel, format)
    {
      Log(Warning, format);
    }

    /** Logs at level Error. */
    method Errorf(format: string)
      modifies this
      ensures logLevel == old(logLevel)
      ensures output == old(output) + Emitted(Error, logLevel, format)
    {
      Log(Error, format);
    }
  }
}
