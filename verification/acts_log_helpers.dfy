/** The mapping from a configuration string to an ACTS logging level (`strToActsLevel`). */
module ActsLogHelpers {
  /** `Acts::Logging::Level`, in increasing severity. */
  datatype ActsLevel = VERBOSE | DEBUG | INFO | WARNING | ERROR | FATAL

  /** The exact spelling of each level's name. */
  function LevelName(l: ActsLevel): string {
    match l
    case VERBOSE => "VERBOSE"
    case DEBUG => "DEBUG"
    case INFO => "INFO"
    case WARNING => "WARNING"
    case ERROR => "ERROR"
    case FATAL => "FATAL"
  }

  /**
   * `strToActsLevel`: an exact, case-sensitive match of a level's name selects that level;
   * any other string falls back to INFO. It never fails.
   */
  function StrToActsLevel(lvl: string): (l: ActsLevel)
    ensures (exists k :: LevelName(k) == lvl) ==> LevelName(l) == lvl
    ensures (forall k :: LevelName(k) != lvl) ==> l == INFO
  {
    if lvl == "VERBOSE" then VERBOSE
    else if lvl == "DEBUG" then DEBUG
    else if lvl == "INFO" then INFO
    else if lvl == "WARNING" then WARNING
    else if lvl == "ERROR" then ERROR
    else if lvl == "FATAL" then FATAL
    else INFO
  }

  /** Naming a level and mapping the name back gives the level. */
  lemma NameRoundTrip(l: ActsLevel)
    ensures StrToActsLevel(LevelName(l)) == l
  {
  }

  /** Distinct levels have distinct names. */
  lemma NamesDistinct(a: ActsLevel, b: ActsLevel)
    requires LevelName(a) == LevelName(b)
    ensures a == b
  {
    NameRoundTrip(a);
    NameRoundTrip(b);
  }

  /** Matching is case-sensitive: lower-case spellings fall back to INFO. */
  lemma CaseSensitive()
    ensures StrToActsLevel("debug") == INFO
    ensures StrToActsLevel("Error") == INFO
  {
  }
}
