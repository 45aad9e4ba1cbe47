/**
 * The spdlog level helpers of the log service: parsing a level name or number given on the
 * command line, and printing a level back. Levels are spdlog's `level_enum` values, trace = 0
 * up to off = 6, with `n_levels` = 7.
 */
module LogService {
  import opened Wrappers
  import opened Text

  const Trace: int := 0
  const Debug: int := 1
  const Info: int := 2
  const Warn: int := 3
  const Err: int := 4
  const Critical: int := 5
  const Off: int := 6
  const NLevels: int := 7

  /** The seven real levels. */
  predicate IsLevel(l: int) { Trace <= l < NLevels }

  /** A `JException`: the text that could not be parsed, or the level that could not be named. */
  datatype LogError = UnknownName(input: string) | UnknownLevel(level: int)

  /** `std::to_string` of a level number, as compared against by the parser. */
  function LevelDigit(l: int): string
    requires IsLevel(l)
  {
    [(48 + l) as char]
  }

  /**
   * `ParseLogLevel`: the input is lower-cased, then compared with each level's names and its
   * decimal number, from trace to off; anything else throws.
   */
  function ParseLogLevel(input: string): (r: Result<int, LogError>)
    ensures r.Success? ==> IsLevel(r.value)
    ensures r.Failure? ==> r.error == UnknownName(input)
    ensures r.Success? <==> Lower(input) in AcceptedNames()
  {
    var lcInput := Lower(input);
    if lcInput == "trace" || lcInput == LevelDigit(Trace) then Success(Trace)
    else if lcInput == "debug" || lcInput == LevelDigit(Debug) then Success(Debug)
    else if lcInput == "info" || lcInput == LevelDigit(Info) then Success(Info)
    else if lcInput == "warn" || lcInput == "warning" || lcInput == LevelDigit(Warn) then Success(Warn)
    else if lcInput == "err" || lcInput == "error" || lcInput == LevelDigit(Err) then Success(Err)
    else if lcInput == "critical" || lcInput == LevelDigit(Critical) then Success(Critical)
    else if lcInput == "off" || lcInput == LevelDigit(Off) then Success(Off)
    else Failure(UnknownName(input))
  }

  /** Every lower-case spelling the parser accepts. */
  function AcceptedNames(): set<string> {
    {"trace", "0", "debug", "1", "info", "2", "warn", "warning", "3", "err", "error", "4",
     "critical", "5", "off", "6"}
  }

  /** `LogLevelToString`: the lower-case name of each real level (`err` prints as "error"); anything else throws. */
  function LogLevelToString(level: int): (r: Result<string, LogError>)
    ensures r.Success? <==> IsLevel(level)
    ensures r.Success? ==> IsLowerCase(r.value)
    ensures r.Failure? ==> r.error == UnknownLevel(level)
  {
    if level == Trace then Success("trace")
    else if level == Debug then Success("debug")
    else if level == Info then Success("info")
    else if level == Warn then Success("warn")
    else if level == Err then Success("error")
    else if level == Critical then Success("critical")
    else if level == Off then Success("off")
    else Failure(UnknownLevel(level))
  }

  /** Lower-casing a string with no upper-case letter changes nothing. */
  lemma LowerOfLowerCase(s: string)
    requires IsLowerCase(s)
    ensures Lower(s) == s
  {
  }

  /** Lower-casing is idempotent. */
  lemma LowerIdempotent(s: string)
    ensures Lower(Lower(s)) == Lower(s)
  {
  }

  /** Printing a level and parsing the text gives the level back. */
  lemma RoundTrip(level: int)
    requires IsLevel(level)
    ensures ParseLogLevel(LogLevelToString(level).value) == Success(level)
  {
    LowerOfLowerCase(LogLevelToString(level).value);
  }

  /**
   * Parsing then printing normalises: any accepted spelling prints as the canonical name,
   * which parses back to the same level.
   */
  lemma Normalise(input: string)
    requires ParseLogLevel(input).Success?
    ensures LogLevelToString(ParseLogLevel(input).value).Success?
    ensures ParseLogLevel(LogLevelToString(ParseLogLevel(input).value).value) == ParseLogLevel(input)
  {
    RoundTrip(ParseLogLevel(input).value);
  }

  /** The parser ignores case: spellings that agree after lower-casing parse alike, errors aside. */
  lemma CaseInsensitive(a: string, b: string)
    requires Lower(a) == Lower(b)
    ensures ParseLogLevel(a).Success? == ParseLogLevel(b).Success?
    ensures ParseLogLevel(a).Success? ==> ParseLogLevel(a).value == ParseLogLevel(b).value
  {
  }

  /** Examples of the normalisation: "WARNING" prints back as "warn", "err" as "error". */
  lemma NormaliseExamples()
    ensures ParseLogLevel("WARNING") == Success(Warn) && LogLevelToString(Warn) == Success("warn")
    ensures ParseLogLevel("err") == Success(Err) && LogLevelToString(Err) == Success("error")
    ensures ParseLogLevel("Verbose").Failure?
  {
    assert Lower("WARNING") == "warning";
    assert Lower("err") == "err";
    assert Lower("Verbose") == "verbose";
  }
}
