/**
 * The command-line handling of the `tdis` executable: after the option parser has taken the
 * options it knows (and the positional files), the remaining arguments are scanned for
 * `-pKEY=VALUE` / `-pKEY VALUE` parameters and further input files; without any input file the
 * program exits with status 1.
 */
module TdisMain {
  import opened Wrappers
  import opened Text

  /** The parameters (lower-case key to value) and the input files. */
  datatype ProgramArguments = ProgramArguments(params: map<string, string>, filePaths: seq<string>)

  /** A parameter token: at least two characters, '-' or '/' then 'p' or 'P'. */
  predicate IsParamToken(arg: string) {
    |arg| >= 2 && (arg[0] == '-' || arg[0] == '/') && (arg[1] == 'p' || arg[1] == 'P')
  }

  /** `std::string::find` of one character: the first index holding it, if any. */
  function FindChar(s: string, c: char): (r: Option<nat>)
    ensures r.Some? ==> r.value < |s| && s[r.value] == c && forall j :: 0 <= j < r.value ==> s[j] != c
    ensures r.None? ==> forall j :: 0 <= j < |s| ==> s[j] != c
  {
    if s == [] then None
    else if s[0] == c then Some(0)
    else match FindChar(s[1..], c)
      case None => None
      case Some(k) => Some(k + 1)
  }

  /**
   * The extras loop from argument `i` on, with `acc` gathered so far. The value of a parameter
   * without '=' is the next argument when there is one and it does not start with '-' (an
   * empty next argument counts, its first character being NUL); that argument is then skipped.
   */
  function ProcessExtras(extras: seq<string>, i: nat, acc: ProgramArguments): (r: ProgramArguments)
    ensures acc.params.Keys <= r.params.Keys
    ensures |acc.filePaths| <= |r.filePaths|
    ensures i <= |extras| ==> |r.filePaths| <= |acc.filePaths| + (|extras| - i)
    decreases |extras| - i
  {
    if i >= |extras| then acc
    else
      var arg := extras[i];
      if IsParamToken(arg) then
        var rest := arg[2..];
        match FindChar(rest, '=')
        case Some(e) =>
          ProcessExtras(extras, i + 1, acc.(params := acc.params[Lower(rest[..e]) := rest[e + 1..]]))
        case None =>
          if i + 1 < |extras| && FirstChar(extras[i + 1]) != '-' then
            ProcessExtras(extras, i + 2, acc.(params := acc.params[Lower(rest) := extras[i + 1]]))
          else
            ProcessExtras(extras, i + 1, acc.(params := acc.params[Lower(rest) := ""]))
      else if FirstChar(arg) != '-' then
        ProcessExtras(extras, i + 1, acc.(filePaths := acc.filePaths + [arg]))
      else
        ProcessExtras(extras, i + 1, acc)
  }

  /**
   * The extras-processing loop of `parseArguments`: `filePaths` starts with the files the
   * option parser already took; `i` also advances inside the body when a value is consumed.
   */
  method ParseExtras(extras: seq<string>, filePaths0: seq<string>) returns (args: ProgramArguments)
    ensures args == ProcessExtras(extras, 0, ProgramArguments(map[], filePaths0))
  {
    var paramMap: map<string, string> := map[];
    var filePaths := filePaths0;
    var i := 0;
    while i < |extras|
      invariant 0 <= i <= |extras|
      invariant ProcessExtras(extras, i, ProgramArguments(paramMap, filePaths))
             == ProcessExtras(extras, 0, ProgramArguments(map[], filePaths0))
    {
      var arg := extras[i];
      var key, value;
      if |arg| >= 2 && (arg[0] == '-' || arg[0] == '/') && (arg[1] == 'p' || arg[1] == 'P') {
        arg := arg[2..];
        var equalPos := FindChar(arg, '=');
        if equalPos.Some? {
          key := arg[..equalPos.value];
          value := arg[equalPos.value + 1..];
        } else if i + 1 < |extras| && FirstChar(extras[i + 1]) != '-' {
          key := arg;
          i := i + 1;
          value := extras[i];
        } else {
          key := arg;
          value := "";
        }
        key := Lower(key);
        paramMap := paramMap[key := value];
      } else if FirstChar(arg) != '-' {
        filePaths := filePaths + [arg];
      }
      i := i + 1;
    }
    args := ProgramArguments(paramMap, filePaths);
  }

  /** `main`'s check before running: with no input file it returns 1, otherwise it goes on (`None`). */
  function MainExitCode(args: ProgramArguments): (code: Option<int>)
    ensures code.Some? <==> args.filePaths == []
    ensures code.Some? ==> code.value == 1
  {
    if args.filePaths == [] then Some(1) else None
  }

  /**
   * The extras loop only appends files: the files already present stay in front, and every
   * added file is an argument that neither is a parameter token nor starts with '-'.
   */
  lemma {:induction false} ExtrasFiles(extras: seq<string>, i: nat, acc: ProgramArguments)
    ensures var out := ProcessExtras(extras, i, acc);
      && |acc.filePaths| <= |out.filePaths|
      && out.filePaths[..|acc.filePaths|] == acc.filePaths
      && forall k :: |acc.filePaths| <= k < |out.filePaths| ==>
           (out.filePaths[k] in extras && FirstChar(out.filePaths[k]) != '-' && !IsParamToken(out.filePaths[k]))
    decreases |extras| - i
  {
    if i < |extras| {
      var arg := extras[i];
      if IsParamToken(arg) {
        var rest := arg[2..];
        match FindChar(rest, '=')
        case Some(e) =>
          ExtrasFiles(extras, i + 1, acc.(params := acc.params[Lower(rest[..e]) := rest[e + 1..]]));
        case None =>
          if i + 1 < |extras| && FirstChar(extras[i + 1]) != '-' {
            ExtrasFiles(extras, i + 2, acc.(params := acc.params[Lower(rest) := extras[i + 1]]));
          } else {
            ExtrasFiles(extras, i + 1, acc.(params := acc.params[Lower(rest) := ""]));
          }
      } else if FirstChar(arg) != '-' {
        var acc' := acc.(filePaths := acc.filePaths + [arg]);
        ExtrasFiles(extras, i + 1, acc');
        var out := ProcessExtras(extras, i + 1, acc');
        assert out.filePaths[..|acc'.filePaths|] == acc'.filePaths;
        assert out.filePaths[..|acc.filePaths|] == acc'.filePaths[..|acc.filePaths|];
      } else {
        ExtrasFiles(extras, i + 1, acc);
      }
    }
  }

  /** Keys are stored lower-cased: if the gathered keys are lower-case, so are all keys at the end. */
  lemma {:induction false} ExtrasKeysLowerCase(extras: seq<string>, i: nat, acc: ProgramArguments)
    requires forall key :: key in acc.params ==> IsLowerCase(key)
    ensures forall key :: key in ProcessExtras(extras, i, acc).params ==> IsLowerCase(key)
    decreases |extras| - i
  {
    if i < |extras| {
      var arg := extras[i];
      if IsParamToken(arg) {
        var rest := arg[2..];
        match FindChar(rest, '=')
        case Some(e) =>
          LowerIsLowerCase(rest[..e]);
          ExtrasKeysLowerCase(extras, i + 1, acc.(params := acc.params[Lower(rest[..e]) := rest[e + 1..]]));
        case None =>
          LowerIsLowerCase(rest);
          if i + 1 < |extras| && FirstChar(extras[i + 1]) != '-' {
            ExtrasKeysLowerCase(extras, i + 2, acc.(params := acc.params[Lower(rest) := extras[i + 1]]));
          } else {
            ExtrasKeysLowerCase(extras, i + 1, acc.(params := acc.params[Lower(rest) := ""]));
          }
      } else if FirstChar(arg) != '-' {
        ExtrasKeysLowerCase(extras, i + 1, acc.(filePaths := acc.filePaths + [arg]));
      } else {
        ExtrasKeysLowerCase(extras, i + 1, acc);
      }
    }
  }

  lemma LowerIsLowerCase(s: string)
    ensures IsLowerCase(Lower(s))
  {
  }

  /** A parameter token without '=' whose next argument exists and does not start with '-': that argument is its value. */
  predicate TakesNext(extras: seq<string>, k: nat)
    requires k < |extras|
  {
    IsParamToken(extras[k]) && FindChar(extras[k][2..], '=').None? && k + 1 < |extras| && FirstChar(extras[k + 1]) != '-'
  }

  /** The argument the loop looks at after argument `k`: the one after its value, if it took one. */
  function Next(extras: seq<string>, k: nat): nat
    requires k < |extras|
  {
    if TakesNext(extras, k) then k + 2 else k + 1
  }

  /**
   * The indices from `i` on that the loop reads as arguments in their own right, in order:
   * every argument except the values taken by a parameter token before them.
   */
  function Heads(extras: seq<string>, i: nat): (hs: seq<nat>)
    ensures forall j :: 0 <= j < |hs| ==> i <= hs[j] < |extras|
    ensures i < |extras| <==> hs != []
    ensures hs != [] ==> hs[0] == i && Next(extras, hs[|hs| - 1]) >= |extras|
    ensures forall j :: 0 <= j < |hs| - 1 ==> hs[j + 1] == Next(extras, hs[j])
    decreases |extras| - i
  {
    if i >= |extras| then []
    else
      var rest := Heads(extras, Next(extras, i));
      assert forall j :: 1 <= j < |rest| + 1 ==> ([i] + rest)[j] == rest[j - 1];
      [i] + rest
  }

  /** The key a parameter token sets: its text after the prefix up to the first '=', lower-cased. */
  function ParamKey(arg: string): string
    requires IsParamToken(arg)
  {
    var rest := arg[2..];
    match FindChar(rest, '=')
    case Some(e) => Lower(rest[..e])
    case None => Lower(rest)
  }

  /** The value a parameter token at `k` sets: its text after the first '=', else the argument it takes, else "". */
  function ParamValue(extras: seq<string>, k: nat): string
    requires k < |extras| && IsParamToken(extras[k])
  {
    var rest := extras[k][2..];
    match FindChar(rest, '=')
    case Some(e) => rest[e + 1..]
    case None => if TakesNext(extras, k) then extras[k + 1] else ""
  }

  /** An argument kept as an input file: neither a parameter token nor starting with '-'. */
  predicate IsFileArg(arg: string) {
    !IsParamToken(arg) && FirstChar(arg) != '-'
  }

  /** The file arguments among the arguments at `hs`, in order. */
  function FilesAt(extras: seq<string>, hs: seq<nat>): seq<string>
    requires forall j :: 0 <= j < |hs| ==> hs[j] < |extras|
  {
    if hs == [] then []
    else (if IsFileArg(extras[hs[0]]) then [extras[hs[0]]] else []) + FilesAt(extras, hs[1..])
  }

  /** One turn of the loop on argument `i`: what it records, and where it goes on. */
  lemma ExtrasStep(extras: seq<string>, i: nat, acc: ProgramArguments)
    requires i < |extras|
    ensures ProcessExtras(extras, i, acc) == ProcessExtras(extras, Next(extras, i),
      if IsParamToken(extras[i]) then acc.(params := acc.params[ParamKey(extras[i]) := ParamValue(extras, i)])
      else if IsFileArg(extras[i]) then acc.(filePaths := acc.filePaths + [extras[i]])
      else acc)
  {
  }

  /**
   * The files are the ones gathered before, then every argument read in its own right that is
   * neither a parameter token nor a dash option, in order; the values taken by parameters are
   * not files.
   */
  lemma {:induction false} ExtrasFilesInOrder(extras: seq<string>, i: nat, acc: ProgramArguments)
    ensures ProcessExtras(extras, i, acc).filePaths == acc.filePaths + FilesAt(extras, Heads(extras, i))
    decreases |extras| - i
  {
    if i < |extras| {
      ExtrasStep(extras, i, acc);
      var n := Next(extras, i);
      var acc' := if IsParamToken(extras[i]) then acc.(params := acc.params[ParamKey(extras[i]) := ParamValue(extras, i)])
        else if IsFileArg(extras[i]) then acc.(filePaths := acc.filePaths + [extras[i]])
        else acc;
      var here := if IsFileArg(extras[i]) then [extras[i]] else [];
      assert acc'.filePaths == acc.filePaths + here;
      ExtrasFilesInOrder(extras, n, acc');
      FilesAtHead(extras, i);
      AppendAssociative(acc.filePaths, here, FilesAt(extras, Heads(extras, n)));
    } else {
      assert acc.filePaths + [] == acc.filePaths;
    }
  }

  lemma FilesAtHead(extras: seq<string>, i: nat)
    requires i < |extras|
    ensures FilesAt(extras, Heads(extras, i))
         == (if IsFileArg(extras[i]) then [extras[i]] else []) + FilesAt(extras, Heads(extras, Next(extras, i)))
  {
    var hs := Heads(extras, i);
    assert hs[0] == i && hs[1..] == Heads(extras, Next(extras, i));
  }

  /** A key that no parameter read from `i` on sets keeps its presence and its value. */
  lemma {:induction false} ExtrasKeyUntouched(extras: seq<string>, i: nat, acc: ProgramArguments, key: string)
    requires forall k :: k in Heads(extras, i) && IsParamToken(extras[k]) ==> ParamKey(extras[k]) != key
    ensures key in ProcessExtras(extras, i, acc).params <==> key in acc.params
    ensures key in acc.params ==> ProcessExtras(extras, i, acc).params[key] == acc.params[key]
    decreases |extras| - i
  {
    if i < |extras| {
      ExtrasStep(extras, i, acc);
      var hs := Heads(extras, i);
      assert hs[0] == i && hs[1..] == Heads(extras, Next(extras, i));
      if IsParamToken(extras[i]) {
        ExtrasKeyUntouched(extras, Next(extras, i), acc.(params := acc.params[ParamKey(extras[i]) := ParamValue(extras, i)]), key);
      } else if IsFileArg(extras[i]) {
        ExtrasKeyUntouched(extras, Next(extras, i), acc.(filePaths := acc.filePaths + [extras[i]]), key);
      } else {
        ExtrasKeyUntouched(extras, Next(extras, i), acc, key);
      }
    }
  }

  /**
   * Last write wins: the value of a key is the one set by the last parameter token read in its
   * own right that names it, kept as written after the '=' or taken whole from the next argument.
   */
  lemma {:induction false} ExtrasLastWins(extras: seq<string>, i: nat, acc: ProgramArguments, k: nat)
    requires k in Heads(extras, i) && IsParamToken(extras[k])
    requires forall k' :: k' in Heads(extras, i) && k < k' && IsParamToken(extras[k']) ==> ParamKey(extras[k']) != ParamKey(extras[k])
    ensures ParamKey(extras[k]) in ProcessExtras(extras, i, acc).params
    ensures ProcessExtras(extras, i, acc).params[ParamKey(extras[k])] == ParamValue(extras, k)
    decreases |extras| - i
  {
    ExtrasStep(extras, i, acc);
    var hs := Heads(extras, i);
    var n := Next(extras, i);
    assert hs[0] == i && hs[1..] == Heads(extras, n);
    var acc' := if IsParamToken(extras[i]) then acc.(params := acc.params[ParamKey(extras[i]) := ParamValue(extras, i)])
      else if IsFileArg(extras[i]) then acc.(filePaths := acc.filePaths + [extras[i]])
      else acc;
    if k == i {
      ExtrasKeyUntouched(extras, n, acc', ParamKey(extras[k]));
    } else {
      ExtrasLastWins(extras, n, acc', k);
    }
  }

  /** `-pfoo bar run.txt`: the parameter takes the next argument as its value; the last argument is a file. */
  lemma ExampleSeparateValue()
    ensures ProcessExtras(["-pfoo", "bar", "run.txt"], 0, ProgramArguments(map[], []))
         == ProgramArguments(map["foo" := "bar"], ["run.txt"])
  {
    var extras := ["-pfoo", "bar", "run.txt"];
    assert extras[0][2..] == "foo";
    assert FindChar("foo", '=') == None;
    assert Lower("foo") == "foo";
    var acc := ProgramArguments(map["foo" := "bar"], []);
    assert ProcessExtras(extras, 0, ProgramArguments(map[], [])) == ProcessExtras(extras, 2, acc);
    assert ProcessExtras(extras, 2, acc) == ProcessExtras(extras, 3, acc.(filePaths := ["run.txt"]));
  }

  /** `-pKey=1 -x f`: an inline value, the key lower-cased; the unknown dash option is dropped. */
  lemma ExampleInlineValue()
    ensures ProcessExtras(["-pKey=1", "-x", "f"], 0, ProgramArguments(map[], []))
         == ProgramArguments(map["key" := "1"], ["f"])
  {
    var extras := ["-pKey=1", "-x", "f"];
    assert extras[0][2..] == "Key=1";
    assert FindChar("Key=1", '=') == Some(3);
    assert "Key=1"[..3] == "Key" && "Key=1"[4..] == "1";
    assert Lower("Key") == "key";
    var acc := ProgramArguments(map["key" := "1"], []);
    assert ProcessExtras(extras, 0, ProgramArguments(map[], [])) == ProcessExtras(extras, 1, acc);
    assert ProcessExtras(extras, 1, acc) == ProcessExtras(extras, 2, acc);
    assert ProcessExtras(extras, 2, acc) == ProcessExtras(extras, 3, acc.(filePaths := ["f"]));
  }

  /** `-pk=1 /Pk=2`: a later duplicate key overwrites the earlier value. */
  lemma ExampleDuplicateKey()
    ensures ProcessExtras(["-pk=1", "/Pk=2"], 0, ProgramArguments(map[], []))
         == ProgramArguments(map["k" := "2"], [])
  {
    var extras := ["-pk=1", "/Pk=2"];
    assert extras[0][2..] == "k=1" && extras[1][2..] == "k=2";
    assert FindChar("k=1", '=') == Some(1);
    assert FindChar("k=2", '=') == Some(1);
    assert "k=1"[..1] == "k" && "k=1"[2..] == "1";
    assert "k=2"[..1] == "k" && "k=2"[2..] == "2";
    assert Lower("k") == "k";
    var acc := ProgramArguments(map["k" := "1"], []);
    assert ProcessExtras(extras, 0, ProgramArguments(map[], [])) == ProcessExtras(extras, 1, acc);
    assert map["k" := "1"]["k" := "2"] == map["k" := "2"];
  }

  /** `-pflag -v`: a following dash argument is not taken as the value, which is then empty. */
  lemma ExampleEmptyValue()
    ensures ProcessExtras(["-pflag", "-v"], 0, ProgramArguments(map[], []))
         == ProgramArguments(map["flag" := ""], [])
  {
    var extras := ["-pflag", "-v"];
    assert extras[0][2..] == "flag";
    assert FindChar("flag", '=') == None;
    assert Lower("flag") == "flag";
    assert FirstChar(extras[1]) == '-';
    var acc := ProgramArguments(map["flag" := ""], []);
    assert ProcessExtras(extras, 0, ProgramArguments(map[], [])) == ProcessExtras(extras, 1, acc);
  }
}
