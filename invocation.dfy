/** `run_racer`: building racer's command line and environment, running it on
    the buffer text, and reading its answer. The process itself is a
    parameter: a function from what racer is given to what it prints. */
module Invocation {
  import opened Wrappers
  import opened PyStr
  import opened PyInt
  import opened RacerOutput
  import opened ContextPath

  /** The environment variable through which racer finds the Rust sources. */
  const RustSrcPath: string := "RUST_SRC_PATH"

  /** What racer is started with. */
  datatype Launch = Launch(argv: seq<string>, env: map<string, string>, stdin: string)

  /** What a finished racer process hands back: its exit code and its
      standard output, one decoded line per element. */
  datatype Outcome = Outcome(exitCode: int, output: seq<string>)

  /** `expand_all`: `os.path.expanduser` applied to every configured path, in
      order. */
  function ExpandAll(paths: seq<string>, expand: string -> string): (r: seq<string>)
    ensures |r| == |paths|
    ensures forall i :: 0 <= i < |paths| ==> r[i] == expand(paths[i])
  {
    seq(|paths|, i requires 0 <= i < |paths| => expand(paths[i]))
  }

  /** The directories racer is told to search: the expanded configured paths,
      then the inherited `RUST_SRC_PATH` when there is one. */
  function SearchPathList(environ: map<string, string>, searchPaths: seq<string>,
                          expand: string -> string): (r: seq<string>)
    ensures |r| == |searchPaths| + (if RustSrcPath in environ then 1 else 0)
    ensures r[..|searchPaths|] == ExpandAll(searchPaths, expand)
    ensures RustSrcPath in environ ==> r[|r| - 1] == environ[RustSrcPath]
  {
    var expanded := ExpandAll(searchPaths, expand);
    if RustSrcPath in environ then expanded + [environ[RustSrcPath]] else expanded
  }

  /** The child's environment: a copy of the editor's own in which
      `RUST_SRC_PATH` is replaced by the search path list joined with the
      platform's path separator. */
  ghost predicate IsRacerEnv(env: map<string, string>, environ: map<string, string>,
                             searchPaths: seq<string>, expand: string -> string, pathSep: char)
  {
    && RustSrcPath in env
    && env[RustSrcPath] == Join(SearchPathList(environ, searchPaths, expand), [pathSep])
    && (forall k :: k != RustSrcPath ==> (k in env <==> k in environ))
    && (forall k :: k != RustSrcPath && k in environ ==> env[k] == environ[k])
  }

  method BuildEnv(environ: map<string, string>, searchPaths: seq<string>,
                  expand: string -> string, pathSep: char)
    returns (env: map<string, string>)
    ensures IsRacerEnv(env, environ, searchPaths, expand, pathSep)
  {
    env := environ;
    var expanded := ExpandAll(searchPaths, expand);
    if RustSrcPath in env {
      expanded := expanded + [env[RustSrcPath]];
    }
    env := env[RustSrcPath := Join(expanded, [pathSep])];
  }

  /** Splitting the new `RUST_SRC_PATH` at the path separator, with
      `maxsplit` one less than the number of paths, gives back the search
      paths, expanded ones first, as long as none of them but possibly the
      last contains the separator. */
  lemma SearchPathsRecovered(environ: map<string, string>, searchPaths: seq<string>,
                             expand: string -> string, pathSep: char)
    requires SearchPathList(environ, searchPaths, expand) != []
    requires forall i :: 0 <= i < |SearchPathList(environ, searchPaths, expand)| - 1 ==>
      pathSep !in SearchPathList(environ, searchPaths, expand)[i]
    ensures var parts := SearchPathList(environ, searchPaths, expand);
      Split(Join(parts, [pathSep]), pathSep, |parts| - 1) == parts
  {
    var parts := SearchPathList(environ, searchPaths, expand);
    var m: nat := |parts| - 1;
    SplitJoin(parts, pathSep, m);
  }

  /** An unlimited split (any `maxsplit` at least the number of paths) gives
      back the search paths when none of them contains the separator; a
      path that does hold it comes back as several entries. */
  lemma SearchPathsSplitApart(environ: map<string, string>, searchPaths: seq<string>,
                              expand: string -> string, pathSep: char, maxsplit: nat)
    requires SearchPathList(environ, searchPaths, expand) != []
    requires maxsplit >= |SearchPathList(environ, searchPaths, expand)|
    requires forall i :: 0 <= i < |SearchPathList(environ, searchPaths, expand)| ==>
      pathSep !in SearchPathList(environ, searchPaths, expand)[i]
    ensures var parts := SearchPathList(environ, searchPaths, expand);
      Split(Join(parts, [pathSep]), pathSep, maxsplit) == parts
  {
    var parts := SearchPathList(environ, searchPaths, expand);
    SplitJoin(parts, pathSep, maxsplit);
  }

  /** The command racer runs: the executable in front of the caller's
      arguments, then the context path and `-`, which makes racer read the
      file's text from standard input. */
  method CommandLine(racerBin: string, cmdList: seq<string>, contextPath: string)
    returns (argv: seq<string>)
    ensures |argv| == |cmdList| + 3
    ensures argv[0] == racerBin && argv[1..|cmdList| + 1] == cmdList
    ensures argv[|cmdList| + 1] == contextPath && argv[|cmdList| + 2] == "-"
  {
    argv := cmdList;
    argv := [racerBin] + argv;
    argv := argv + [contextPath];
    argv := argv + ["-"];
  }

  /** The two racer commands the plugin issues. */
  datatype Command = Complete | FindDefinition

  function CommandName(c: Command): (r: string)
    ensures r == CompleteWithSnippet <==> c == Complete
  {
    match c
    case Complete => CompleteWithSnippet
    case FindDefinition => "find-definition"
  }

  /** `[command, str(row), str(col)]` for the cursor at zero-based row `row0`
      and column `col`: racer counts rows from one and columns from zero. */
  function CommandArgs(c: Command, row0: nat, col: nat): (r: seq<string>)
    ensures |r| == 3 && r[0] == CommandName(c)
  {
    [CommandName(c), IntToString(row0 + 1), IntToString(col)]
  }

  /** The arguments are the decimal forms of the one-based row and the
      unchanged column: `int()` reads them back. */
  lemma CommandArgsPosition(c: Command, row0: nat, col: nat)
    ensures ParseInt(CommandArgs(c, row0, col)[1]) == Some(row0 + 1)
    ensures ParseInt(CommandArgs(c, row0, col)[2]) == Some(col)
  {
    ParseIntToString(row0 + 1);
    ParseIntToString(col);
  }

  /** `run_racer`. The caller supplies the current view's file name and
      text, the file names of the window's views, the settings, the
      editor's environment and the process; the results are racer's
      answer as read by `ParseOutput`, and racer was launched with the
      command line and environment built above. */
  method RunRacer(racerBin: string, searchPaths: seq<string>, expand: string -> string,
                  environ: map<string, string>, pathSep: char,
                  fileName: Option<string>, content: string, views: seq<Option<string>>,
                  cmdList: seq<string>, process: Launch -> Outcome)
    returns (launch: Launch, results: Result<seq<Match>, ParseError>)
    requires |cmdList| >= 1
    ensures |launch.argv| == |cmdList| + 3
    ensures launch.argv[..|cmdList| + 1] == [racerBin] + cmdList
    ensures IsContextPath(fileName, views, launch.argv[|cmdList| + 1])
    ensures launch.argv[|cmdList| + 2] == "-"
    ensures IsRacerEnv(launch.env, environ, searchPaths, expand, pathSep)
    ensures launch.stdin == content
    ensures process(launch).exitCode != 0 ==> results == Success([])
    ensures process(launch).exitCode == 0 ==>
      results == ParseLines(cmdList[0] == CompleteWithSnippet, process(launch).output)
  {
    var withSnippet := cmdList[0] == CompleteWithSnippet;
    var contextPath := DetermineContextPath(fileName, views);
    var argv := CommandLine(racerBin, cmdList, contextPath);
    assert argv[..|cmdList| + 1] == [argv[0]] + argv[1..|cmdList| + 1];
    var env := BuildEnv(environ, searchPaths, expand, pathSep);
    launch := Launch(argv, env, content);
    var outcome := process(launch);
    results := ParseOutput(withSnippet, outcome.exitCode, outcome.output);
  }
}
