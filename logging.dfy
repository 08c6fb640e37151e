/**
 * The engine's log writer: a message is kept only when its level reaches
 * the global threshold, and it is written, prefixed with the level name and
 * the source file's base name and line, when the writer goes away. The
 * global threshold is a parameter.
 */
module Logging {
  import opened Wrappers

  datatype LogLevel = Debug | Info | Warning | Error

  /** The enumerator values of `LogLevel`. */
  function LevelValue(l: LogLevel): (r: nat)
    ensures r in {10, 20, 30, 40}
  {
    match l
    case Debug => 10
    case Info => 20
    case Warning => 30
    case Error => 40
  }

  function LevelName(l: LogLevel): string
  {
    match l
    case Debug => "DEBUG"
    case Info => "INFO"
    case Warning => "WARNING"
    case Error => "ERROR"
  }

  /** The levels are strictly ordered Debug < Info < Warning < Error, and distinct levels have distinct values and names. */
  lemma LevelsOrdered(a: LogLevel, b: LogLevel)
    ensures a == b <==> LevelValue(a) == LevelValue(b)
    ensures a == b <==> LevelName(a) == LevelName(b)
    ensures LevelValue(Debug) < LevelValue(Info) < LevelValue(Warning) < LevelValue(Error)
  {
  }

  /** The threshold the source starts with. */
  const DEFAULT_THRESHOLD: LogLevel := Debug

  /** `std::string::rfind('/')`: the index of the last '/', if any. */
  function LastSlash(path: string): (r: Option<nat>)
    ensures r.None? <==> '/' !in path
    ensures r.Some? ==> r.value < |path| && path[r.value] == '/' && '/' !in path[r.value + 1..]
  {
    if |path| == 0 then None
    else if path[|path| - 1] == '/' then Some(|path| - 1)
    else
      var r := LastSlash(path[..|path| - 1]);
      assert path[..|path| - 1] + [path[|path| - 1]] == path;
      if r.Some? then
        assert path[r.value + 1..] == path[..|path| - 1][r.value + 1..] + [path[|path| - 1]];
        r
      else r
  }

  /**
   * `basename`: a path without '/' is returned whole; otherwise the suffix
   * from the last '/' on, the slash included.
   */
  function Basename(path: string): (r: string)
    ensures '/' !in path ==> r == path
    ensures '/' in path ==> |r| > 0 && r[0] == '/' && '/' !in r[1..]
    ensures |r| <= |path| && path == path[..|path| - |r|] + r
  {
    match LastSlash(path)
    case None => path
    case Some(pos) => path[pos..]
  }

  /** The formatted record the destructor writes: level, file base name, line and message. */
  datatype LogRecord = LogRecord(level: string, file: string, line: int, message: string)

  /**
   * What an `ostringstream` holds after `t` is written at put position `p`
   * of `s`: the text replaces the characters it covers and extends the
   * buffer past its end when it is longer.
   */
  function WrittenAt(s: string, p: nat, t: string): (r: string)
    requires p <= |s|
    ensures |r| == if p + |t| <= |s| then |s| else p + |t|
    ensures r[..p] == s[..p] && r[p..p + |t|] == t
    ensures p + |t| <= |s| ==> r[p + |t|..] == s[p + |t|..]
  {
    s[..p] + t + (if p + |t| < |s| then s[p + |t|..] else [])
  }

  /** Writing at the end of the buffer appends. */
  lemma WrittenAtEndAppends(s: string, t: string)
    ensures WrittenAt(s, |s|, t) == s + t
  {
    assert s[..|s|] == s;
  }

  /** Two writes in a row, the second where the first stopped, write the concatenation. */
  lemma WrittenAtTwice(s: string, p: nat, t: string, u: string)
    requires p <= |s|
    ensures WrittenAt(WrittenAt(s, p, t), p + |t|, u) == WrittenAt(s, p, t + u)
  {
    var once := WrittenAt(s, p, t);
    var twice := WrittenAt(once, p + |t|, u);
    var whole := WrittenAt(s, p, t + u);
    assert |twice| == |whole|;
    forall k | 0 <= k < |twice|
      ensures twice[k] == whole[k]
    {
      if k < p {
        assert twice[k] == twice[..p][k] == once[..p][k];
        assert whole[k] == whole[..p][k];
      } else if k < p + |t| {
        assert twice[k] == twice[..p + |t|][k] == once[..p + |t|][k] == once[p..p + |t|][k - p];
        assert whole[k] == whole[p..p + |t| + |u|][k - p] == (t + u)[k - p];
      } else if k < p + |t| + |u| {
        assert twice[k] == twice[p + |t|..p + |t| + |u|][k - p - |t|];
        assert whole[k] == whole[p..p + |t| + |u|][k - p] == (t + u)[k - p];
      } else {
        assert twice[k] == twice[p + |t| + |u|..][k - p - |t| - |u|] == once[p + |t| + |u|..][k - p - |t| - |u|];
        assert once[k] == once[p + |t|..][k - p - |t|] == s[p + |t|..][k - p - |t|];
        assert whole[k] == whole[p + |t| + |u|..][k - p - |t| - |u|] == s[p + |t| + |u|..][k - p - |t| - |u|];
      }
    }
  }

  /** A message written at the start replaces the beginning of the stream's text instead of following it. */
  lemma WrittenAtStartOverwrites()
    ensures WrittenAt("ab", 0, "X") == "Xb"
    ensures WrittenAt("ab", 0, "X") != "ab" + "X"
  {
    assert WrittenAt("ab", 0, "X") == [] + "X" + "ab"[1..];
  }

  class LogWriter {
    const enabled: bool
    const level: LogLevel
    const file: string
    const line: int
    /** The text of `_stream`, and its put position. */
    var stream: string
    var pos: nat

    ghost predicate Valid()
      reads this
    {
      pos <= |stream|
    }

    /**
     * The writer is enabled exactly when its level is at least the
     * threshold. `_stream(message)` opens the stream for output only, so
     * the put position is at the start of the message.
     */
    constructor (level: LogLevel, file: string, line: int, message: string, threshold: LogLevel)
      ensures Valid()
      ensures enabled <==> LevelValue(level) >= LevelValue(threshold)
      ensures this.level == level && this.file == file && this.line == line
      ensures stream == message && pos == 0
    {
      this.enabled := LevelValue(level) >= LevelValue(threshold);
      this.level := level;
      this.file := file;
      this.line := line;
      this.stream := message;
      this.pos := 0;
    }

    /** The writer with its stream opened at the end, `_stream(message, std::ios_base::ate)`. */
    constructor AtEnd(level: LogLevel, file: string, line: int, message: string, threshold: LogLevel)
      ensures Valid()
      ensures enabled <==> LevelValue(level) >= LevelValue(threshold)
      ensures this.level == level && this.file == file && this.line == line
      ensures stream == message && pos == |message|
    {
      this.enabled := LevelValue(level) >= LevelValue(threshold);
      this.level := level;
      this.file := file;
      this.line := line;
      this.stream := message;
      this.pos := |message|;
    }

    /** `operator<<`: when the writer is enabled, the text is written at the put position, which moves past it. */
    method Append(text: string)
      requires Valid()
      modifies this
      ensures Valid()
      ensures enabled ==> stream == WrittenAt(old(stream), old(pos), text) && pos == old(pos) + |text|
      ensures !enabled ==> stream == old(stream) && pos == old(pos)
    {
      if enabled {
        stream := WrittenAt(stream, pos, text);
        pos := pos + |text|;
      }
    }

    /** The destructor: a disabled writer writes nothing; an enabled one writes one record. */
    method Finish() returns (out: Option<LogRecord>)
      ensures out.None? <==> !enabled
      ensures out.Some? ==> out.value == LogRecord(LevelName(level), Basename(file), line, stream)
    {
      if !enabled {
        return None;
      }
      out := Some(LogRecord(LevelName(level), Basename(file), line, stream));
    }
  }

  /**
   * With the default threshold every message is written, whatever its
   * level; the text streamed after a message overwrites its beginning.
   */
  method LogAtDefaultThreshold(level: LogLevel, file: string, line: int, message: string, more: string, rest: string)
    returns (out: Option<LogRecord>)
    ensures out == Some(LogRecord(LevelName(level), Basename(file), line, WrittenAt(message, 0, more + rest)))
  {
    var w := new LogWriter(level, file, line, message, DEFAULT_THRESHOLD);
    w.Append(more);
    w.Append(rest);
    out := w.Finish();
    WrittenAtTwice(message, 0, more, rest);
  }

  /** With the stream opened at the end, the streamed text follows the message. */
  method LogAppendedAtDefaultThreshold(level: LogLevel, file: string, line: int, message: string, more: string, rest: string)
    returns (out: Option<LogRecord>)
    ensures out == Some(LogRecord(LevelName(level), Basename(file), line, message + more + rest))
  {
    var w := new LogWriter.AtEnd(level, file, line, message, DEFAULT_THRESHOLD);
    w.Append(more);
    w.Append(rest);
    out := w.Finish();
    WrittenAtEndAppends(message, more);
    WrittenAtEndAppends(message + more, rest);
  }

  /** Below the threshold nothing is written, whatever was appended. */
  method LogBelowThreshold(level: LogLevel, threshold: LogLevel, file: string, line: int, message: string, more: string)
    returns (out: Option<LogRecord>)
    requires LevelValue(level) < LevelValue(threshold)
    ensures out.None?
  {
    var w := new LogWriter(level, file, line, message, threshold);
    w.Append(more);
    out := w.Finish();
  }
}
