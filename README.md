# RustAutoComplete, modelled in Dafny

RustAutoComplete is a Sublime Text plugin that asks the external `racer` tool
for Rust completions and definitions. This project models its core in Dafny
and proves properties of that model. The modelled parts are:

- **Running racer** (`run_racer`). The plugin builds racer's command line and
  environment and feeds it the buffer on standard input. It then reads
  racer's `MATCH ` lines into result records.
- **The context path** (`determine_context_path`). This is the file name
  racer is told the buffer lives at.
- **The completion listener** (`on_query_completions`). It orders the
  results by kind and lays them out as two aligned columns for the popup.
- **The go-to-definition command.** It prefixes a drive letter on Windows and
  builds the `path:row:col` name the editor opens.

The project has these modules, one file each:

- `Wrappers`: `Option` and `Result`.
- `PyStr`, `PyInt`, `PosixPath`: the Python library behaviour the plugin
  relies on.
  - `str.split` with a `maxsplit`, `str.join`, and right alignment in
    `format`.
  - The search for one character from the left or the right. The plugin
    never calls `str.find` or `str.rfind` itself. These searches are the
    building blocks of `split` and of `posixpath.dirname`.
  - `int()` and `str()` on base-10 integers.
  - `os.path.dirname` and `os.path.join` with POSIX semantics.
- `RacerOutput`: the `Result` record, the field splitting of one line, and
  the parsing loop.
- `ContextPath`: the context path.
- `Invocation`: command line, environment, and `run_racer` as a whole.
- `Completions`: ranking, stable sorting, the popup layout, and the
  listener.
- `GotoDefinition`: the definition command.

The racer process, the editor and the operating system are parameters:

- **The process.** A function from what racer is launched with (argv,
  environment, standard input) to what it returns (exit code, decoded output
  lines).
- **The window's views.** Each view is reduced to its file name (`None` for
  a view never saved).
- **Values the editor supplies.** The cursor's zero-based row and column,
  whether the cursor is in Rust source, the platform name, the editor's
  environment variables and `os.pathsep`.
- **Home-directory expansion.** `os.path.expanduser` is an uninterpreted
  function.
- **The editor's reading of a `path:row:col` name.** The source does not say
  how Sublime Text parses the name it passes with `ENCODED_POSITION`.
  `GotoDefinition.DecodePosition` is an assumed reader: the row and column
  are the numbers after the last two colons, and the path is everything
  before them.

The Python exceptions raised by a malformed racer line are modelled as an
error value:

- `IndexError` when a field is missing.
- `ValueError` when the row or column is not an integer.

The error ends the listener or command, as the exception does in Python.

## Model

| member | source | states |
|---|---|---|
| `PyStr.Split` | RustAutoComplete.py:143-145 | `str.split(sep, maxsplit)` yields between 1 and `maxsplit + 1` pieces |
| `PyStr.JoinSplit` | RustAutoComplete.py:143-145 | joining the pieces of a split with the separator gives the original string back |
| `PyStr.SplitJoin` | RustAutoComplete.py:143-145 | splitting a joined list gives the list back when no piece holds the separator (the last may, when `maxsplit` stops there) |
| `PyStr.SplitJoinRemainder` | RustAutoComplete.py:143-145 | with `maxsplit` equal to the number of clean pieces, the remainder is kept whole as the last piece |
| `PyStr.SplitCount` | RustAutoComplete.py:143-145 | the number of pieces is one more than the number of separators, capped at `maxsplit` |
| `PyStr.Join` | RustAutoComplete.py:124 | `sep.join(parts)` starts with the first part; `JoinCons`, `JoinSnoc` and `JoinSplit` fix the rest |
| `PyStr.IndexOfFirst` | RustAutoComplete.py:143-145 | the search `split` makes for its next cut finds the first occurrence, and nothing exactly when the character is absent |
| `PyStr.LastIndexOf` | RustAutoComplete.py:80 | the search `posixpath.dirname` makes for the last separator finds the last occurrence, and nothing exactly when it is absent |
| `PyStr.JoinSnoc` | RustAutoComplete.py:124 | joining a list with one more element appends the separator and that element |
| `PyStr.RightAlign` | RustAutoComplete.py:194 | `'{:>w}'` gives a string of length `max(w, len)` that ends with the text and is space-filled in front |
| `PyInt.IntToString` | RustAutoComplete.py:166 | `str(n)` is nonempty, all digits apart from a leading minus, and has no surrounding whitespace |
| `PyInt.ParseInt` | RustAutoComplete.py:52-53 | `int()` accepts only text that ends in a digit once stripped; a negative value needs a leading minus; plain digits always read as a non-negative number |
| `PyInt.ParseIntToString` | RustAutoComplete.py:52-53 | `int(str(n)) == n` for every integer |
| `PosixPath.Dirname` | RustAutoComplete.py:80 | `os.path.dirname(p)` is a prefix of `p` |
| `PosixPath.JoinPath` | RustAutoComplete.py:80 | `os.path.join(a, b)` is `b` when `b` is absolute; otherwise it starts with `a` and ends with `b` |
| `PosixPath.DirnameOfChild` | RustAutoComplete.py:80 | the directory of `dir/name` is `dir` |
| `PosixPath.DirnameOfRootChild` | RustAutoComplete.py:80 | the directory of `/name` is `/` |
| `RacerOutput.FromParts` | RustAutoComplete.py:48-56 | `Result(parts)` succeeds exactly when there are seven pieces and pieces 2 and 3 are integers; the record holds pieces 0 to 6; a missing field is reported at index `len(parts)` |
| `RacerOutput.SplitFields` | RustAutoComplete.py:142-146 | completion lines give at most 8 pieces; definition lines give at most 8, with an empty snippet at position 1 |
| `RacerOutput.ParseLine` | RustAutoComplete.py:141-148 | one `MATCH ` line becomes a record, and a definition line always has an empty snippet |
| `RacerOutput.ParseLines` | RustAutoComplete.py:136-149 | the parse has at most one record per output line; `ParseLinesSuccess` and `ParseLinesFailure` give its exact value |
| `RacerOutput.MatchLines` | RustAutoComplete.py:141 | the selected lines are exactly the output lines starting with `MATCH ` |
| `RacerOutput.ParseLinesSuccess` | RustAutoComplete.py:136-149 | a successful parse has one record per `MATCH ` line, in output order, each read from its own line |
| `RacerOutput.ParseLinesFailure` | RustAutoComplete.py:136-149 | a failed parse reports the error of the first `MATCH ` line that cannot be read |
| `RacerOutput.ParseLinesSucceeds` | RustAutoComplete.py:136-149 | the parse succeeds if and only if every `MATCH ` line can be read |
| `RacerOutput.ParseLinesFailureSticks` | RustAutoComplete.py:139-149 | once a prefix of the output fails, the whole output fails with the same error |
| `RacerOutput.SnippetLineRoundTrip` | RustAutoComplete.py:143 | a completion line racer writes for a record reads back as that record when no text field holds `;` |
| `RacerOutput.SnippetLineDropsRest` | RustAutoComplete.py:143 | anything after a seventh `;` is dropped |
| `RacerOutput.DefinitionLineRoundTrip` | RustAutoComplete.py:144-146 | a definition line reads back as the record with an empty snippet when no text field holds `,` |
| `RacerOutput.DefinitionLineDropsRest` | RustAutoComplete.py:144-146 | anything after a sixth `,` is dropped |
| `RacerOutput.TooFewFieldsFail` | RustAutoComplete.py:142-148 | a line with fewer than six `;` (or five `,`) separators cannot be read |
| `RacerOutput.ParseOutput` | RustAutoComplete.py:135-152 | a nonzero exit code gives no records whatever the output; exit code 0 gives the line-by-line parse |
| `ContextPath.TransientPath` | RustAutoComplete.py:80 | the candidate path ends in `_transient.rs` |
| `ContextPath.TransientSibling` | RustAutoComplete.py:80 | the candidate for `dir/name` is `dir/_transient.rs` |
| `ContextPath.TransientAtRoot` | RustAutoComplete.py:80 | the candidate for `/name` is `/_transient.rs` |
| `ContextPath.Candidates` | RustAutoComplete.py:77-80 | there are no more candidates than views |
| `ContextPath.CandidatesFromViews` | RustAutoComplete.py:77-80 | a path is a candidate exactly when some saved view's name ends in `.rs` and yields that path |
| `ContextPath.CountOccurrences` | RustAutoComplete.py:87-92 | the dictionary maps exactly the candidates to their number of occurrences |
| `ContextPath.MostFrequent` | RustAutoComplete.py:95 | `max` over the keys returns a key whose count no other key exceeds |
| `ContextPath.DetermineContextPath` | RustAutoComplete.py:63-95 | the view's own name if it has one; else `-` when no open view is a Rust file; else a most frequent candidate |
| `Invocation.ExpandAll` | RustAutoComplete.py:59-61 | every configured path is expanded, in order |
| `Invocation.SearchPathList` | RustAutoComplete.py:121-123 | the expanded paths come first, then the inherited `RUST_SRC_PATH` if there is one |
| `Invocation.BuildEnv` | RustAutoComplete.py:118-124 | `RUST_SRC_PATH` is the joined search path list, and every other variable is inherited unchanged (`IsRacerEnv`) |
| `Invocation.SearchPathsRecovered` | RustAutoComplete.py:124 | splitting the new `RUST_SRC_PATH` at `os.pathsep` with `maxsplit` one less than the number of paths gives the search path list back, when no path but the last holds the separator |
| `Invocation.SearchPathsSplitApart` | RustAutoComplete.py:121-124 | an unlimited split at `os.pathsep` gives the search path list back when no path holds the separator |
| `Invocation.CommandLine` | RustAutoComplete.py:103-116 | argv is the racer binary, the caller's arguments, the context path and `-` |
| `Invocation.CommandName` | RustAutoComplete.py:101 | only the completion command selects the snippet format |
| `Invocation.CommandArgs` | RustAutoComplete.py:162-166 | the argument list is the command followed by two position arguments |
| `Invocation.CommandArgsPosition` | RustAutoComplete.py:162-166 | the arguments are the decimal forms of the one-based row and the unchanged column (`int()` reads them back) |
| `Invocation.RunRacer` | RustAutoComplete.py:97-152 | racer is launched with `[racer_bin] + cmd_list + [context_path, "-"]`, the new environment and the buffer text; its answer is read as by `ParseOutput` in the format `cmd_list[0]` selects |
| `Completions.Rank` | RustAutoComplete.py:171-179 | the six known kinds rank from 0 to 5, and every other kind ranks 100 |
| `Completions.RanksDistinct` | RustAutoComplete.py:171-179 | the six known kinds have six different ranks |
| `Completions.SortByRank` | RustAutoComplete.py:181 | `sorted` keeps the number of records; `SortByRankSorted`, `SortByRankPermutes` and `SortByRankStable` pin it down as Python's stable sort by rank |
| `Completions.SortByRankSorted` | RustAutoComplete.py:181 | the sorted records are ordered by rank |
| `Completions.SortByRankPermutes` | RustAutoComplete.py:181 | sorting neither loses nor invents a record |
| `Completions.SortByRankStable` | RustAutoComplete.py:181 | records of equal rank keep racer's order |
| `Completions.KnownKindsFirst` | RustAutoComplete.py:171-181 | every record of a known kind comes before every record of an unknown kind |
| `Completions.LAlignIsMax` | RustAutoComplete.py:183-186 | `lalign` is the largest `len(completion) + len(type)` over the records, or 0 for none |
| `Completions.ComputeLAlign` | RustAutoComplete.py:183-187 | the first loop computes `lalign`, the largest width shown by `LAlignIsMax` |
| `Completions.ContextSuffix` | RustAutoComplete.py:192 | the suffix is empty exactly for modules, and `" : " + context` for every other kind |
| `Completions.DisplayLine` | RustAutoComplete.py:192-194 | a popup line starts with the completion and three spaces and ends with the kind and its context suffix |
| `Completions.DisplayLineLayout` | RustAutoComplete.py:194 | the completion and the right-aligned kind take exactly `lalign + 3` characters, and the context suffix follows |
| `Completions.Entries` | RustAutoComplete.py:189-196 | there is one entry per record |
| `Completions.BuildEntries` | RustAutoComplete.py:189-196 | the second loop builds the entries and the longest display length |
| `Completions.EntriesAt` | RustAutoComplete.py:191-196 | entry `i` is the display line and the unchanged snippet of record `i` |
| `Completions.LongestIsMax` | RustAutoComplete.py:190-195 | `longest` is the length of the longest display line |
| `Completions.PadFirst` | RustAutoComplete.py:202 | the first entry is padded with spaces to `max(len, longest - 2)` |
| `Completions.CompletionList` | RustAutoComplete.py:199-204 | nothing is returned exactly when there are no records |
| `Completions.CompletionListEntries` | RustAutoComplete.py:189-204 | one entry per record with its snippet; only entry 0 is padded; both inhibit flags are set |
| `Completions.CompletionColumnsAlign` | RustAutoComplete.py:183-196 | on every popup line the kind ends at column `lalign + 3` |
| `Completions.FormatCompletions` | RustAutoComplete.py:183-204 | the `lalign`, `longest` and padding loops compute the popup described by `CompletionList` |
| `Completions.OnQueryCompletions` | RustAutoComplete.py:156-204 | outside Rust source nothing runs. Otherwise racer is launched with `[racer_bin, "complete-with-snippet", str(row + 1), str(col), context_path, "-"]`, the new environment and the buffer on standard input. The parsed records, sorted by rank, become the popup |
| `GotoDefinition.NormalizePath` | RustAutoComplete.py:220-221 | `c:` is prefixed exactly on Windows and when the path does not start with `\w:` |
| `GotoDefinition.DriveLetterMatch` | RustAutoComplete.py:220 | `HasDriveLetter` holds exactly for a word character followed by a colon and anything at all |
| `GotoDefinition.NormalizePathIdempotent` | RustAutoComplete.py:218-221 | on Windows the result has a drive letter, and normalising twice changes nothing |
| `GotoDefinition.EncodePosition` | RustAutoComplete.py:222 | the name starts with the path and a colon; `EncodePositionRoundTrip` gives back the row and column |
| `GotoDefinition.EncodePositionRoundTrip` | RustAutoComplete.py:222 | the `path:row:col` name reads back as the same path, row and column, even when the path holds colons |
| `GotoDefinition.GotoTarget` | RustAutoComplete.py:215-222 | a file is opened exactly when racer found one definition |
| `GotoDefinition.GotoTargetPosition` | RustAutoComplete.py:215-223 | the editor is sent to that definition's path, row and column |
| `GotoDefinition.Run` | RustAutoComplete.py:208-223 | racer is launched with `[racer_bin, "find-definition", str(row + 1), str(col), context_path, "-"]`, the new environment and the buffer on standard input; the target is opened for a single result |

## Left out

- The `Settings` class, the global `settings` and the
  `plugin_loaded`/`plugin_unloaded`/`settings_changed` callbacks
  (RustAutoComplete.py:10-45) are editor configuration glue. `racer_bin` and
  `search_paths` are parameters instead.
- Starting the process is a parameter: `Popen`, `communicate`, `wait`,
  `STARTUPINFO` and the `os.name` check. Output lines arrive already split
  and decoded.
- UTF-8 decoding of the output and encoding of the buffer are left out.
- `os.path.expanduser` is an uninterpreted function parameter.
- Several Sublime calls become parameters: `view.substr`, `view.rowcol`,
  `match_selector`, `window().views()` and `sublime.platform()`.
- `open_file` is left out. The model returns the name that would be opened.
- The values of `sublime.INHIBIT_WORD_COMPLETIONS` (8) and
  `sublime.INHIBIT_EXPLICIT_COMPLETIONS` (16) come from the Sublime API. That
  API is not part of this model.
- The `print` diagnostics are left out, including the failure message for a
  nonzero exit code.
- The `FileNotFoundError` handler for a missing racer binary is left out.
  It only logs and returns.
- `ralign` is left out. It is computed and never used.
- PyInt.ParseInt: `int()` is modelled for ASCII whitespace, an optional
  sign and ASCII digits. Underscore separators and non-ASCII digits or
  whitespace are not modelled. Racer never writes them.
- GotoDefinition.HasDriveLetter: `\w` is taken as ASCII letters, digits and
  `_`. Python 3's `re` also accepts other Unicode word characters.
- PosixPath.Dirname: only POSIX path semantics are modelled. On Windows,
  `os.path` treats `\` and drive letters specially.
- ContextPath.MostFrequent: when several candidates are equally frequent,
  the source returns the first in dictionary order. Dictionary order is
  unspecified in the editor's Python, so the model chooses an arbitrary
  most-frequent key.
- `ContextPath.DetermineContextPath` promises "some most-frequent candidate"
  for the same reason.
- Field count: a result line is easily read as "at most seven fields". The
  code splits with `maxsplit` 7 (`;`) or 6 (`,`), and `Result` reads only the
  first seven pieces. So a context that holds the separator is cut at its
  first occurrence, and the rest is lost. The model follows the code
  (`SnippetLineDropsRest`, `DefinitionLineDropsRest`).
