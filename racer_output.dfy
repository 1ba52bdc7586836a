/** Reading racer's standard output: which lines are results, how one
    `MATCH ` line is cut into fields, and how the fields become a record
    (`Result` and the parsing part of `run_racer`). */
module RacerOutput {
  import opened Wrappers
  import opened PyStr
  import opened PyInt

  /** The prefix racer puts on every result line. */
  const MatchPrefix: string := "MATCH "

  /** The racer command whose output carries a snippet field. */
  const CompleteWithSnippet: string := "complete-with-snippet"

  /** One result racer reported (the plugin's `Result` object). `kind` is
      racer's match type, such as "Function" or "Module". */
  datatype Match = Match(
    completion: string,
    snippet: string,
    row: int,
    column: int,
    path: string,
    kind: string,
    context: string)

  /** What building a `Result` raises in Python: `IndexError` when a field
      is missing (`index` is the first position read that does not exist),
      `ValueError` when the row or column is not an integer. */
  datatype ParseError = FieldMissing(index: nat) | NotAnInteger(text: string)

  /** `Result(parts)`: fields are read in order 0 to 6, row and column through
      `int()`, so the first missing or non-numeric field read decides the
      error. Pieces after the seventh are ignored. */
  function FromParts(parts: seq<string>): (r: Result<Match, ParseError>)
    ensures r.Success? <==>
      |parts| >= 7 && ParseInt(parts[2]).Some? && ParseInt(parts[3]).Some?
    ensures r.Success? ==>
      r.value.completion == parts[0] && r.value.snippet == parts[1] &&
      Some(r.value.row) == ParseInt(parts[2]) && Some(r.value.column) == ParseInt(parts[3]) &&
      r.value.path == parts[4] && r.value.kind == parts[5] && r.value.context == parts[6]
    ensures r.Failure? && r.error.FieldMissing? ==> r.error.index == |parts| < 7
  {
    if |parts| < 3 then Failure(FieldMissing(|parts|))
    else match ParseInt(parts[2])
      case None => Failure(NotAnInteger(parts[2]))
      case Some(row) =>
        if |parts| < 4 then Failure(FieldMissing(|parts|))
        else match ParseInt(parts[3])
          case None => Failure(NotAnInteger(parts[3]))
          case Some(column) =>
            if |parts| < 7 then Failure(FieldMissing(|parts|))
            else Success(Match(parts[0], parts[1], row, column, parts[4], parts[5], parts[6]))
  }

  /** The separator of each output format. */
  function Separator(withSnippet: bool): char {
    if withSnippet then ';' else ','
  }

  /** The pieces of a line's body: `split(';', 7)` for completions;
      `split(',', 6)` with an empty snippet inserted at position 1 for
      definitions. */
  function SplitFields(withSnippet: bool, body: string): (parts: seq<string>)
    ensures withSnippet ==> 1 <= |parts| <= 8
    ensures !withSnippet ==> 2 <= |parts| <= 8 && parts[1] == ""
  {
    if withSnippet then Split(body, ';', 7)
    else
      var pieces := Split(body, ',', 6);
      [pieces[0]] + [""] + pieces[1..]
  }

  /** One result line: the body after `MATCH ` cut into fields and read into
      a record. */
  function ParseLine(withSnippet: bool, line: string): (r: Result<Match, ParseError>)
    requires StartsWith(line, MatchPrefix)
    ensures r.Success? && !withSnippet ==> r.value.snippet == ""
  {
    FromParts(SplitFields(withSnippet, line[|MatchPrefix|..]))
  }

  /** The lines of the output that start with `MATCH `, in output order. */
  function MatchLines(lines: seq<string>): (r: seq<string>)
    ensures forall i :: 0 <= i < |r| ==> StartsWith(r[i], MatchPrefix)
    ensures forall l :: l in r <==> l in lines && StartsWith(l, MatchPrefix)
    ensures |r| <= |lines|
  {
    if lines == [] then []
    else
      var last := lines[|lines| - 1];
      var front := lines[..|lines| - 1];
      assert lines == front + [last];
      MatchLines(front) + (if StartsWith(last, MatchPrefix) then [last] else [])
  }

  /** The records of a whole output, read line by line from the first: one
      record per `MATCH ` line; the first such line whose fields cannot be
      read stops the parse with its error. */
  function ParseLines(withSnippet: bool, lines: seq<string>): (r: Result<seq<Match>, ParseError>)
    ensures r.Success? ==> |r.value| <= |lines|
  {
    if lines == [] then Success([])
    else
      var last := lines[|lines| - 1];
      match ParseLines(withSnippet, lines[..|lines| - 1])
      case Failure(e) => Failure(e)
      case Success(rs) =>
        if !StartsWith(last, MatchPrefix) then Success(rs)
        else match ParseLine(withSnippet, last)
          case Failure(e) => Failure(e)
          case Success(m) => Success(rs + [m])
  }

  /** Reading one more line after `front`. */
  lemma ParseLinesSnoc(withSnippet: bool, front: seq<string>, last: string)
    ensures ParseLines(withSnippet, front + [last]) ==
      match ParseLines(withSnippet, front)
      case Failure(e) => Failure(e)
      case Success(rs) =>
        if !StartsWith(last, MatchPrefix) then Success(rs)
        else match ParseLine(withSnippet, last)
          case Failure(e) => Failure(e)
          case Success(m) => Success(rs + [m])
  {
    var lines := front + [last];
    assert lines[..|lines| - 1] == front;
  }

  /** The `MATCH ` lines of `front + [last]`. */
  lemma MatchLinesSnoc(front: seq<string>, last: string)
    ensures MatchLines(front + [last]) ==
      MatchLines(front) + (if StartsWith(last, MatchPrefix) then [last] else [])
  {
    var lines := front + [last];
    assert lines[..|lines| - 1] == front;
  }

  /** A successful parse holds exactly one record per `MATCH ` line, in
      output order, each read from its own line. */
  lemma {:induction false} ParseLinesSuccess(withSnippet: bool, lines: seq<string>)
    requires ParseLines(withSnippet, lines).Success?
    ensures var rs := ParseLines(withSnippet, lines).value;
      |rs| == |MatchLines(lines)| &&
      forall i :: 0 <= i < |rs| ==> ParseLine(withSnippet, MatchLines(lines)[i]) == Success(rs[i])
  {
    if lines != [] {
      var front, last := lines[..|lines| - 1], lines[|lines| - 1];
      assert lines == front + [last];
      MatchLinesSnoc(front, last);
      ParseLinesSnoc(withSnippet, front, last);
      ParseLinesSuccess(withSnippet, front);
      var rs := ParseLines(withSnippet, front).value;
      var ml := MatchLines(front);
      if StartsWith(last, MatchPrefix) {
        var m := ParseLine(withSnippet, last).value;
        assert ParseLines(withSnippet, lines).value == rs + [m];
        assert MatchLines(lines) == ml + [last];
        forall i | 0 <= i < |rs| + 1
          ensures ParseLine(withSnippet, (ml + [last])[i]) == Success((rs + [m])[i])
        {
          if i < |rs| {
            assert (ml + [last])[i] == ml[i];
            assert (rs + [m])[i] == rs[i];
          }
        }
      } else {
        assert ParseLines(withSnippet, lines).value == rs;
        assert MatchLines(lines) == ml;
      }
    }
  }

  /** Line `i` of `ml` is the first that cannot be read, and fails with `e`. */
  predicate FirstFailure(withSnippet: bool, ml: seq<string>, i: int, e: ParseError)
    requires forall k :: 0 <= k < |ml| ==> StartsWith(ml[k], MatchPrefix)
  {
    && 0 <= i < |ml|
    && ParseLine(withSnippet, ml[i]) == Failure(e)
    && forall j :: 0 <= j < i ==> ParseLine(withSnippet, ml[j]).Success?
  }

  lemma FirstFailureExtend(withSnippet: bool, ml: seq<string>, more: seq<string>, i: int, e: ParseError)
    requires forall k :: 0 <= k < |ml| ==> StartsWith(ml[k], MatchPrefix)
    requires forall k :: 0 <= k < |more| ==> StartsWith(more[k], MatchPrefix)
    requires FirstFailure(withSnippet, ml, i, e)
    ensures FirstFailure(withSnippet, ml + more, i, e)
  {
    assert forall j :: 0 <= j <= i ==> (ml + more)[j] == ml[j];
  }

  /** A failed parse reports the error of the first `MATCH ` line that cannot
      be read. */
  lemma {:induction false} ParseLinesFailure(withSnippet: bool, lines: seq<string>)
    requires ParseLines(withSnippet, lines).Failure?
    ensures exists i :: FirstFailure(withSnippet, MatchLines(lines), i, ParseLines(withSnippet, lines).error)
  {
    var front, last := lines[..|lines| - 1], lines[|lines| - 1];
    assert lines == front + [last];
    MatchLinesSnoc(front, last);
    var e := ParseLines(withSnippet, lines).error;
    var more := if StartsWith(last, MatchPrefix) then [last] else [];
    if ParseLines(withSnippet, front).Failure? {
      ParseLinesFailure(withSnippet, front);
      var i :| FirstFailure(withSnippet, MatchLines(front), i, e);
      FirstFailureExtend(withSnippet, MatchLines(front), more, i, e);
    } else {
      ParseLinesSuccess(withSnippet, front);
      var ml := MatchLines(lines);
      var i := |MatchLines(front)|;
      assert ml[i] == last;
      assert forall j :: 0 <= j < i ==> ml[j] == MatchLines(front)[j];
      assert FirstFailure(withSnippet, ml, i, e);
    }
  }

  /** The parse succeeds exactly when every `MATCH ` line can be read. */
  lemma ParseLinesSucceeds(withSnippet: bool, lines: seq<string>)
    ensures ParseLines(withSnippet, lines).Success? <==>
      forall i :: 0 <= i < |MatchLines(lines)| ==> ParseLine(withSnippet, MatchLines(lines)[i]).Success?
  {
    if ParseLines(withSnippet, lines).Success? {
      ParseLinesSuccess(withSnippet, lines);
    } else {
      ParseLinesFailure(withSnippet, lines);
    }
  }

  /** Once the lines read so far have failed, the whole parse fails with the
      same error: reading stops at the first bad `MATCH ` line. */
  lemma {:induction false} ParseLinesFailureSticks(withSnippet: bool, lines: seq<string>, k: nat)
    requires k <= |lines| && ParseLines(withSnippet, lines[..k]).Failure?
    ensures ParseLines(withSnippet, lines) == ParseLines(withSnippet, lines[..k])
    decreases |lines| - k
  {
    if k < |lines| {
      assert lines[..k + 1][..k] == lines[..k];
      ParseLinesFailureSticks(withSnippet, lines, k + 1);
    } else {
      assert lines[..k] == lines;
    }
  }

  /** The fields racer writes for a completion, in order. */
  function SnippetFields(m: Match): seq<string> {
    [m.completion, m.snippet, IntToString(m.row), IntToString(m.column), m.path, m.kind, m.context]
  }

  /** The fields racer writes for a definition: no snippet. */
  function DefinitionFields(m: Match): seq<string> {
    [m.completion, IntToString(m.row), IntToString(m.column), m.path, m.kind, m.context]
  }

  /** The `complete-with-snippet` line racer prints for a record. */
  function SnippetLine(m: Match): string {
    MatchPrefix + Join(SnippetFields(m), [';'])
  }

  /** The `find-definition` line racer prints for a record. */
  function DefinitionLine(m: Match): string {
    MatchPrefix + Join(DefinitionFields(m), [','])
  }

  /** None of the textual fields of `m` holds `c`. */
  predicate TextFreeOf(m: Match, c: char) {
    c !in m.completion && c !in m.snippet && c !in m.path && c !in m.kind && c !in m.context
  }

  /** The first seven of `parts` are the fields of `m`, as racer writes them. */
  predicate HoldsFields(parts: seq<string>, m: Match) {
    && |parts| >= 7
    && parts[0] == m.completion && parts[1] == m.snippet
    && parts[2] == IntToString(m.row) && parts[3] == IntToString(m.column)
    && parts[4] == m.path && parts[5] == m.kind && parts[6] == m.context
  }

  /** The decimal form of an integer holds no field separator. */
  lemma IntToStringFreeOf(n: int, c: char)
    requires c == ';' || c == ','
    ensures c !in IntToString(n)
  {
  }

  /** The body after the prefix. */
  lemma BodyOf(body: string)
    ensures (MatchPrefix + body)[|MatchPrefix|..] == body
  {
  }

  /** The body of a line that carries one more piece after the fields. */
  lemma BodyWithRemainder(fields: seq<string>, rest: string, sep: char)
    requires fields != []
    ensures (MatchPrefix + Join(fields, [sep]) + [sep] + rest)[|MatchPrefix|..]
      == Join(fields + [rest], [sep])
  {
    JoinSnoc(fields, rest, [sep]);
    assert MatchPrefix + Join(fields, [sep]) + [sep] + rest == MatchPrefix + Join(fields + [rest], [sep]);
  }

  /** `Result` reads a record back from its fields, whatever follows them. */
  lemma FromFields(parts: seq<string>, m: Match)
    requires HoldsFields(parts, m)
    ensures FromParts(parts) == Success(m)
  {
    ParseIntToString(m.row);
    ParseIntToString(m.column);
  }

  /** Every field racer writes for `m` is free of `c`. */
  lemma FieldsFreeOf(m: Match, c: char)
    requires (c == ';' || c == ',') && TextFreeOf(m, c)
    ensures forall i :: 0 <= i < |SnippetFields(m)| ==> c !in SnippetFields(m)[i]
    ensures forall i :: 0 <= i < |DefinitionFields(m)| ==> c !in DefinitionFields(m)[i]
  {
    IntToStringFreeOf(m.row, c);
    IntToStringFreeOf(m.column, c);
  }

  /** The fields racer writes for `m`, followed by at most one more piece,
      hold the fields of `m`. */
  lemma HoldsSnippetFields(m: Match, tail: seq<string>)
    ensures HoldsFields(SnippetFields(m) + tail, m)
  {
  }

  /** With the empty snippet inserted, the definition fields of `m` followed
      by `tail` hold the fields of `m` without its snippet. */
  lemma HoldsDefinitionFields(m: Match, tail: seq<string>)
    ensures HoldsFields([m.completion] + [""] + (DefinitionFields(m) + tail)[1..], m.(snippet := ""))
  {
    var pieces := DefinitionFields(m) + tail;
    assert pieces[1..][..5] == DefinitionFields(m)[1..];
  }

  /** The completion fields of `m` split back out of their joined form. */
  lemma SnippetPieces(m: Match)
    requires TextFreeOf(m, ';')
    ensures HoldsFields(Split(Join(SnippetFields(m), [';']), ';', 7), m)
  {
    FieldsFreeOf(m, ';');
    SplitJoin(SnippetFields(m), ';', 7);
    HoldsSnippetFields(m, []);
    assert SnippetFields(m) + [] == SnippetFields(m);
  }

  /** The completion fields of `m` and one more piece split back out of their
      joined form. */
  lemma SnippetPiecesWithRest(m: Match, rest: string)
    requires TextFreeOf(m, ';')
    ensures HoldsFields(Split(Join(SnippetFields(m) + [rest], [';']), ';', 7), m)
  {
    FieldsFreeOf(m, ';');
    SplitJoinRemainder(SnippetFields(m), rest, ';');
    HoldsSnippetFields(m, [rest]);
  }

  /** The definition fields of `m` split back out of their joined form, with
      the empty snippet inserted, followed by `tail`. */
  lemma DefinitionPieces(m: Match, tail: seq<string>)
    requires Split(Join(DefinitionFields(m) + tail, [',']), ',', 6) == DefinitionFields(m) + tail
    ensures HoldsFields(SplitFields(false, Join(DefinitionFields(m) + tail, [','])), m.(snippet := ""))
  {
    HoldsDefinitionFields(m, tail);
  }

  /** Reading a completion line racer wrote for `m` gives `m` back, provided
      no textual field holds a `;`. */
  lemma SnippetLineRoundTrip(m: Match)
    requires TextFreeOf(m, ';')
    ensures ParseLine(true, SnippetLine(m)) == Success(m)
  {
    var fields := SnippetFields(m);
    BodyOf(Join(fields, [';']));
    SnippetPieces(m);
    FromFields(Split(Join(fields, [';']), ';', 7), m);
  }

  /** `split(';', 7)` makes at most eight pieces and `Result` reads seven: a
      `;` in the context cuts it, and whatever follows that `;` is dropped. */
  lemma SnippetLineDropsRest(m: Match, rest: string)
    requires TextFreeOf(m, ';')
    ensures ParseLine(true, SnippetLine(m) + [';'] + rest) == Success(m)
  {
    var fields := SnippetFields(m);
    BodyWithRemainder(fields, rest, ';');
    SnippetPiecesWithRest(m, rest);
    FromFields(Split(Join(fields + [rest], [';']), ';', 7), m);
  }

  /** Reading a definition line racer wrote for `m` gives `m` with an empty
      snippet, provided no textual field holds a `,`. */
  lemma DefinitionLineRoundTrip(m: Match)
    requires TextFreeOf(m, ',')
    ensures ParseLine(false, DefinitionLine(m)) == Success(m.(snippet := ""))
  {
    var fields := DefinitionFields(m);
    BodyOf(Join(fields, [',']));
    assert fields + [] == fields;
    FieldsFreeOf(m, ',');
    SplitJoin(fields, ',', 6);
    DefinitionPieces(m, []);
    FromFields(SplitFields(false, Join(fields, [','])), m.(snippet := ""));
  }

  /** `split(',', 6)` makes at most seven pieces, the inserted snippet makes
      eight and `Result` reads seven: a `,` in the context cuts it, and
      whatever follows that `,` is dropped. */
  lemma DefinitionLineDropsRest(m: Match, rest: string)
    requires TextFreeOf(m, ',')
    ensures ParseLine(false, DefinitionLine(m) + [','] + rest) == Success(m.(snippet := ""))
  {
    var fields := DefinitionFields(m);
    BodyWithRemainder(fields, rest, ',');
    FieldsFreeOf(m, ',');
    SplitJoinRemainder(fields, rest, ',');
    DefinitionPieces(m, [rest]);
    FromFields(SplitFields(false, Join(fields + [rest], [','])), m.(snippet := ""));
  }

  /** A `MATCH ` line with fewer than seven fields cannot be read: `Result`
      raises. */
  lemma {:induction false} TooFewFieldsFail(withSnippet: bool, line: string)
    requires StartsWith(line, MatchPrefix)
    requires multiset(line[|MatchPrefix|..])[Separator(withSnippet)] < (if withSnippet then 6 else 5)
    ensures ParseLine(withSnippet, line).Failure?
  {
    var body := line[|MatchPrefix|..];
    if withSnippet {
      SplitCount(body, ';', 7);
    } else {
      SplitCount(body, ',', 6);
    }
  }

  /** The parsing loop of `run_racer`: with exit code 0, every `MATCH ` line
      of the output is read into a record, in order, and the first line that
      cannot be read raises; any other exit code gives no records whatever the
      output. */
  method ParseOutput(withSnippet: bool, exitCode: int, output: seq<string>)
    returns (results: Result<seq<Match>, ParseError>)
    ensures exitCode != 0 ==> results == Success([])
    ensures exitCode == 0 ==> results == ParseLines(withSnippet, output)
  {
    var records: seq<Match> := [];
    if exitCode == 0 {
      var i := 0;
      while i < |output|
        invariant 0 <= i <= |output|
        invariant ParseLines(withSnippet, output[..i]) == Success(records)
      {
        var line := output[i];
        assert output[..i + 1] == output[..i] + [line];
        ParseLinesSnoc(withSnippet, output[..i], line);
        if StartsWith(line, MatchPrefix) {
          var parsed := ParseLine(withSnippet, line);
          if parsed.Failure? {
            ParseLinesFailureSticks(withSnippet, output, i + 1);
            return Failure(parsed.error);
          }
          records := records + [parsed.value];
        }
        i := i + 1;
      }
      assert output[..i] == output;
    }
    return Success(records);
  }
}
