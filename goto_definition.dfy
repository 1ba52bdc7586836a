/** `RustGotoDefinitionCommand`: asking racer where the symbol under the
    cursor is defined and opening that file at that position. */
module GotoDefinition {
  import opened Wrappers
  import opened PyStr
  import opened PyInt
  import opened RacerOutput
  import opened ContextPath
  import opened Invocation

  /** `\w` on ASCII text: a letter, a digit or an underscore. */
  predicate IsWordChar(c: char) {
    ('a' <= c <= 'z') || ('A' <= c <= 'Z') || ('0' <= c <= '9') || c == '_'
  }

  /** Whether `^\w\:` matches: the path begins with a drive letter. */
  predicate HasDriveLetter(path: string) {
    |path| >= 2 && IsWordChar(path[0]) && path[1] == ':'
  }

  /** `^\w\:` matches exactly the paths made of a word character, a colon
      and anything at all. */
  lemma DriveLetterMatch(path: string)
    ensures HasDriveLetter(path) <==> exists c, rest :: IsWordChar(c) && path == [c, ':'] + rest
  {
    if HasDriveLetter(path) {
      assert path == [path[0], ':'] + path[2..];
    }
  }

  /** The drive racer leaves out of the paths it reports on Windows. */
  const DefaultDrive: string := "c:"

  /** The path handed to the editor: on Windows, `c:` is put in front of a
      path that has no drive letter; elsewhere the path is left alone. */
  function NormalizePath(path: string, platform: string): (r: string)
    ensures r == path || r == DefaultDrive + path
    ensures r == DefaultDrive + path <==> platform == "windows" && !HasDriveLetter(path)
  {
    if platform == "windows" && !HasDriveLetter(path) then DefaultDrive + path else path
  }

  /** On Windows the normalized path always has a drive letter, and
      normalizing it again changes nothing. */
  lemma NormalizePathIdempotent(path: string, platform: string)
    ensures platform == "windows" ==> HasDriveLetter(NormalizePath(path, platform))
    ensures NormalizePath(NormalizePath(path, platform), platform) == NormalizePath(path, platform)
  {
    if platform == "windows" && !HasDriveLetter(path) {
      assert (DefaultDrive + path)[..2] == DefaultDrive;
    }
  }

  /** `"{0}:{1}:{2}".format(path, row, column)`: the file name with the
      position the editor jumps to. */
  function EncodePosition(path: string, row: int, column: int): (r: string)
    ensures StartsWith(r, path + [':'])
  {
    path + [':'] + IntToString(row) + [':'] + IntToString(column)
  }

  /** How the editor reads such a name back: the two numbers after the last
      two colons, the path before them. */
  function DecodePosition(s: string): (r: Option<(string, int, int)>)
  {
    match LastIndexOf(s, ':')
    case None => None
    case Some(i) =>
      match LastIndexOf(s[..i], ':')
      case None => None
      case Some(j) => ReadNumbers(s[..j], s[j + 1..i], s[i + 1..])
  }

  /** The path with the row and column read from their texts. */
  function ReadNumbers(path: string, row: string, column: string): Option<(string, int, int)> {
    match (ParseInt(row), ParseInt(column))
    case (Some(r), Some(c)) => Some((path, r, c))
    case _ => None
  }

  lemma IntToStringNoColon(n: int)
    ensures ':' !in IntToString(n)
  {
    var r := IntToString(n);
    forall k | 0 <= k < |r|
      ensures r[k] != ':'
    {
    }
  }

  /** Decoding cuts at the last two colons, whatever the path holds. */
  lemma DecodeCuts(path: string, row: string, column: string)
    requires ':' !in row && ':' !in column
    ensures DecodePosition(path + [':'] + row + [':'] + column) == ReadNumbers(path, row, column)
  {
    var front := path + [':'] + row;
    var s := front + [':'] + column;
    LastIndexOfBefore(front, ':', column);
    LastIndexOfBefore(path, ':', row);
    assert s[..|front|] == front;
    assert s[..|path|] == path;
    assert s[|path| + 1..|front|] == row;
    assert s[|front| + 1..] == column;
  }

  /** The encoded name gives back the path, row and column, even when the
      path itself holds colons, such as after a drive letter. */
  lemma EncodePositionRoundTrip(path: string, row: int, column: int)
    ensures DecodePosition(EncodePosition(path, row, column)) == Some((path, row, column))
  {
    IntToStringNoColon(row);
    IntToStringNoColon(column);
    DecodeCuts(path, IntToString(row), IntToString(column));
    ParseIntToString(row);
    ParseIntToString(column);
  }

  /** What the command opens: the one definition racer found, with its
      path normalized for the platform; nothing when racer found none or
      several. */
  function GotoTarget(results: seq<Match>, platform: string): (r: Option<string>)
    ensures r.Some? <==> |results| == 1
  {
    if |results| == 1 then
      Some(EncodePosition(NormalizePath(results[0].path, platform), results[0].row, results[0].column))
    else None
  }

  /** The editor is sent to the definition's file, row and column. */
  lemma GotoTargetPosition(results: seq<Match>, platform: string)
    requires |results| == 1
    ensures DecodePosition(GotoTarget(results, platform).value) ==
      Some((NormalizePath(results[0].path, platform), results[0].row, results[0].column))
  {
    EncodePositionRoundTrip(NormalizePath(results[0].path, platform), results[0].row, results[0].column);
  }

  /** `RustGotoDefinitionCommand.run` for the cursor at zero-based row
      `row0` and column `col`: racer runs `find-definition` there, and the
      file to open is the target above; a malformed racer line ends the
      command with the error. */
  method Run(racerBin: string, searchPaths: seq<string>, expand: string -> string,
             environ: map<string, string>, pathSep: char, platform: string,
             fileName: Option<string>, content: string, views: seq<Option<string>>,
             row0: nat, col: nat, process: Launch -> Outcome)
    returns (launch: Launch, target: Result<Option<string>, ParseError>)
    ensures |launch.argv| == 6
    ensures launch.argv[..4] == [racerBin, "find-definition", IntToString(row0 + 1), IntToString(col)]
    ensures IsContextPath(fileName, views, launch.argv[4])
    ensures launch.argv[5] == "-"
    ensures IsRacerEnv(launch.env, environ, searchPaths, expand, pathSep)
    ensures launch.stdin == content
    ensures process(launch).exitCode != 0 ==> target == Success(None)
    ensures process(launch).exitCode == 0 ==>
      match ParseLines(false, process(launch).output)
      case Success(records) => target == Success(GotoTarget(records, platform))
      case Failure(e) => target == Failure(e)
  {
    var cmdList := CommandArgs(FindDefinition, row0, col);
    var results;
    launch, results := RunRacer(racerBin, searchPaths, expand, environ, pathSep,
                                fileName, content, views, cmdList, process);
    match results
    case Failure(e) => target := Failure(e);
    case Success(records) => target := Success(GotoTarget(records, platform));
  }
}
