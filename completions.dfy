/** `on_query_completions`: racer's completions ordered by kind and laid out
    as two aligned columns for the editor's completion popup. */
module Completions {
  import opened Wrappers
  import opened PyStr
  import opened PyInt
  import opened RacerOutput
  import opened ContextPath
  import opened Invocation

  /** The position of each known kind in the popup. */
  const KindRank: map<string, nat> :=
    map["Module" := 0, "Function" := 1, "Struct" := 2, "Trait" := 3, "Type" := 4, "Enum" := 5]

  /** The rank of every kind not listed above. */
  const UnknownRank: nat := 100

  /** The sort key `cmp`: the kind's rank, or 100 for a kind not listed. */
  function Rank(m: Match): (r: nat)
    ensures m.kind in KindRank ==> r <= 5
    ensures m.kind !in KindRank ==> r == UnknownRank
  {
    if m.kind in KindRank then KindRank[m.kind] else UnknownRank
  }

  /** The six kinds have six distinct ranks. */
  lemma RanksDistinct(a: Match, b: Match)
    requires a.kind in KindRank && b.kind in KindRank
    ensures Rank(a) == Rank(b) <==> a.kind == b.kind
  {
  }

  predicate SortedByRank(s: seq<Match>) {
    forall i, j :: 0 <= i < j < |s| ==> Rank(s[i]) <= Rank(s[j])
  }

  /** The records of rank `k`, in their order in `s`. */
  function OfRank(s: seq<Match>, k: nat): (r: seq<Match>)
    ensures |r| <= |s|
  {
    if s == [] then []
    else OfRank(s[..|s| - 1], k) + (if Rank(s[|s| - 1]) == k then [s[|s| - 1]] else [])
  }

  /** `m` placed after every record of rank at most its own, and before the
      records of greater rank that end `s`. */
  function Insert(s: seq<Match>, m: Match): (r: seq<Match>)
    ensures |r| == |s| + 1
  {
    if s == [] || Rank(s[|s| - 1]) <= Rank(m) then s + [m]
    else Insert(s[..|s| - 1], m) + [s[|s| - 1]]
  }

  /** `sorted(raw_results, key=cmp)`: Python's sort is stable, so this is the
      insertion sort that inserts each record after the equal-ranked ones. */
  function SortByRank(s: seq<Match>): (r: seq<Match>)
    ensures |r| == |s|
  {
    if s == [] then [] else Insert(SortByRank(s[..|s| - 1]), s[|s| - 1])
  }

  lemma {:induction false} InsertPermutes(s: seq<Match>, m: Match)
    ensures multiset(Insert(s, m)) == multiset(s) + multiset{m}
  {
    if s != [] && Rank(s[|s| - 1]) > Rank(m) {
      var init := s[..|s| - 1];
      InsertPermutes(init, m);
      assert s == init + [s[|s| - 1]];
    }
  }

  lemma {:induction false} InsertSorted(s: seq<Match>, m: Match)
    requires SortedByRank(s)
    ensures SortedByRank(Insert(s, m))
  {
    if s != [] && Rank(s[|s| - 1]) > Rank(m) {
      var init := s[..|s| - 1];
      var last := s[|s| - 1];
      InsertSorted(init, m);
      InsertPermutes(init, m);
      var t := Insert(init, m);
      forall i | 0 <= i < |t|
        ensures Rank(t[i]) <= Rank(last)
      {
        assert t[i] in multiset(init) + multiset{m};
        if t[i] != m {
          assert t[i] in init;
          var j :| 0 <= j < |init| && init[j] == t[i];
          assert s[j] == init[j];
        }
      }
    }
  }

  lemma {:induction false} InsertKeepsOrder(s: seq<Match>, m: Match, k: nat)
    ensures OfRank(Insert(s, m), k) == OfRank(s, k) + (if Rank(m) == k then [m] else [])
  {
    if s == [] || Rank(s[|s| - 1]) <= Rank(m) {
      assert (s + [m])[..|s|] == s;
    } else {
      var init := s[..|s| - 1];
      var last := s[|s| - 1];
      InsertKeepsOrder(init, m, k);
      var t := Insert(init, m);
      assert (t + [last])[..|t|] == t;
    }
  }

  /** The sort orders the records by rank... */
  lemma {:induction false} SortByRankSorted(s: seq<Match>)
    ensures SortedByRank(SortByRank(s))
  {
    if s != [] {
      SortByRankSorted(s[..|s| - 1]);
      InsertSorted(SortByRank(s[..|s| - 1]), s[|s| - 1]);
    }
  }

  /** ...neither loses nor invents a record... */
  lemma {:induction false} SortByRankPermutes(s: seq<Match>)
    ensures multiset(SortByRank(s)) == multiset(s)
  {
    if s != [] {
      var init := s[..|s| - 1];
      SortByRankPermutes(init);
      InsertPermutes(SortByRank(init), s[|s| - 1]);
      assert s == init + [s[|s| - 1]];
    }
  }

  /** ...and keeps records of equal rank in racer's order. */
  lemma {:induction false} SortByRankStable(s: seq<Match>, k: nat)
    ensures OfRank(SortByRank(s), k) == OfRank(s, k)
  {
    if s != [] {
      var init := s[..|s| - 1];
      SortByRankStable(init, k);
      InsertKeepsOrder(SortByRank(init), s[|s| - 1], k);
    }
  }

  /** So every record of a known kind comes before every record of an
      unknown one. */
  lemma KnownKindsFirst(s: seq<Match>, i: nat, j: nat)
    requires i < |SortByRank(s)| && j < |SortByRank(s)|
    requires SortByRank(s)[i].kind in KindRank && SortByRank(s)[j].kind !in KindRank
    ensures i < j
  {
    SortByRankSorted(s);
  }

  /** The width of a record's first column and its kind together. */
  function Width(m: Match): nat {
    |m.completion| + |m.kind|
  }

  /** `lalign`: the largest width of any record, 0 when there are none. */
  function LAlign(s: seq<Match>): (r: nat)
  {
    if s == [] then 0
    else
      var w := LAlign(s[..|s| - 1]);
      if Width(s[|s| - 1]) > w then Width(s[|s| - 1]) else w
  }

  lemma {:induction false} LAlignIsMax(s: seq<Match>)
    ensures forall i :: 0 <= i < |s| ==> Width(s[i]) <= LAlign(s)
    ensures s == [] ==> LAlign(s) == 0
    ensures s != [] ==> exists i :: 0 <= i < |s| && Width(s[i]) == LAlign(s)
  {
    if s != [] {
      var init := s[..|s| - 1];
      LAlignIsMax(init);
      assert forall i :: 0 <= i < |init| ==> s[i] == init[i];
      if Width(s[|s| - 1]) <= LAlign(init) && init != [] {
        var i :| 0 <= i < |init| && Width(init[i]) == LAlign(init);
        assert s[i] == init[i];
      }
    }
  }

  /** What follows the kind: `" : "` and the context line, except for
      modules. */
  function ContextSuffix(m: Match): (r: string)
    ensures m.kind == "Module" <==> r == ""
    ensures m.kind != "Module" ==> r == " : " + m.context
  {
    if m.kind != "Module" then " : " + m.context else ""
  }

  /** `"{0}   {1:>{2}}{3}"`: the completion, three spaces, the kind
      right-aligned so that it ends at column `lalign + 3`, then the
      context. */
  function DisplayLine(m: Match, lalign: int): (r: string)
    ensures StartsWith(r, m.completion + "   ")
    ensures EndsWith(r, m.kind + ContextSuffix(m))
  {
    var aligned := RightAlign(m.kind, lalign - |m.completion|);
    assert aligned == aligned[..|aligned| - |m.kind|] + m.kind;
    m.completion + "   " + aligned[..|aligned| - |m.kind|] + (m.kind + ContextSuffix(m))
  }

  /** The layout of one popup line when `lalign` is at least the record's
      width: the two columns take exactly `lalign + 3` characters, the
      completion on the left and the kind flush right, then the suffix. */
  lemma DisplayLineLayout(m: Match, lalign: nat)
    requires Width(m) <= lalign
    ensures var line := DisplayLine(m, lalign);
      && |line| == lalign + 3 + |ContextSuffix(m)|
      && StartsWith(line, m.completion + "   ")
      && line[..lalign + 3] == m.completion + "   " + Spaces(lalign - Width(m)) + m.kind
      && line[lalign + 3..] == ContextSuffix(m)
  {
    var pad := RightAlign(m.kind, lalign - |m.completion|);
    assert |pad| == lalign - |m.completion|;
    assert pad == Spaces(lalign - Width(m)) + m.kind;
    var line := DisplayLine(m, lalign);
    assert line == (m.completion + "   " + Spaces(lalign - Width(m)) + m.kind) + ContextSuffix(m);
  }

  /** A popup entry: the text shown and the snippet inserted. */
  type Entry = (string, string)

  /** One entry per record, in order. */
  function Entries(s: seq<Match>, lalign: int): (r: seq<Entry>)
    ensures |r| == |s|
  {
    if s == [] then [] else Entries(s[..|s| - 1], lalign) + [(DisplayLine(s[|s| - 1], lalign), s[|s| - 1].snippet)]
  }

  lemma {:induction false} EntriesAt(s: seq<Match>, lalign: int, i: nat)
    requires i < |s|
    ensures Entries(s, lalign)[i] == (DisplayLine(s[i], lalign), s[i].snippet)
  {
    if i < |s| - 1 {
      EntriesAt(s[..|s| - 1], lalign, i);
    }
  }

  /** `longest`: the longest display text, 0 when there is none. */
  function Longest(es: seq<Entry>): (r: nat)
  {
    if es == [] then 0
    else
      var w := Longest(es[..|es| - 1]);
      if |es[|es| - 1].0| > w then |es[|es| - 1].0| else w
  }

  lemma {:induction false} LongestIsMax(es: seq<Entry>)
    ensures forall i :: 0 <= i < |es| ==> |es[i].0| <= Longest(es)
    ensures es != [] ==> exists i :: 0 <= i < |es| && |es[i].0| == Longest(es)
  {
    if es != [] {
      var init := es[..|es| - 1];
      LongestIsMax(init);
      assert forall i :: 0 <= i < |init| ==> es[i] == init[i];
      if |es[|es| - 1].0| <= Longest(init) && init != [] {
        var i :| 0 <= i < |init| && |init[i].0| == Longest(init);
        assert es[i] == init[i];
      }
    }
  }

  /** `"{0}{1:>{2}}".format(text, '', max(0, longest - len(text) - 2))`:
      the first entry is widened with spaces, since its width sets the
      popup's. */
  function PadFirst(text: string, longest: nat): (r: string)
    ensures |r| == if longest - 2 > |text| then longest - 2 else |text|
    ensures StartsWith(r, text) && forall i :: |text| <= i < |r| ==> r[i] == ' '
  {
    var w := longest - |text| - 2;
    text + RightAlign("", if w > 0 then w else 0)
  }

  /** `sublime.INHIBIT_WORD_COMPLETIONS | sublime.INHIBIT_EXPLICIT_COMPLETIONS`:
      the popup shows racer's completions only. */
  const InhibitWordCompletions: bv32 := 8
  const InhibitExplicitCompletions: bv32 := 16

  /** What the listener returns for records already in popup order:
      nothing when there are none; otherwise the entries, the first one
      padded, with both inhibit flags. */
  function CompletionList(s: seq<Match>): (r: Option<(seq<Entry>, bv32)>)
    ensures r.None? <==> s == []
  {
    if s == [] then None
    else
      var es := Entries(s, LAlign(s));
      Some((es[0 := (PadFirst(es[0].0, Longest(es)), es[0].1)],
            InhibitWordCompletions | InhibitExplicitCompletions))
  }

  /** The entries line up with the records: the same number, each snippet
      carried unchanged, each text the record's popup line, the first one
      padded to two short of the longest text (or left as it is when
      already longer), and the flags asking to hide the editor's own
      suggestions. */
  lemma CompletionListEntries(s: seq<Match>, i: nat)
    requires i < |s|
    ensures var r := CompletionList(s);
      && r.Some? && |r.value.0| == |s|
      && r.value.1 & InhibitWordCompletions != 0 && r.value.1 & InhibitExplicitCompletions != 0
      && r.value.0[i].1 == s[i].snippet
      && (i > 0 ==> r.value.0[i].0 == DisplayLine(s[i], LAlign(s)))
      && (i == 0 ==> r.value.0[0].0 == PadFirst(DisplayLine(s[0], LAlign(s)), Longest(Entries(s, LAlign(s)))))
  {
    EntriesAt(s, LAlign(s), i);
    EntriesAt(s, LAlign(s), 0);
  }

  /** Every popup line puts the kind column flush right at the same column,
      three past the widest completion-and-kind pair. */
  lemma CompletionColumnsAlign(s: seq<Match>, i: nat)
    requires i < |s|
    ensures var line := CompletionList(s).value.0[i].0;
      && Width(s[i]) <= LAlign(s)
      && |line| >= LAlign(s) + 3
      && line[..LAlign(s) + 3] == s[i].completion + "   " + Spaces(LAlign(s) - Width(s[i])) + s[i].kind
  {
    LAlignIsMax(s);
    CompletionListEntries(s, i);
    DisplayLineLayout(s[i], LAlign(s));
  }

  /** The first loop: `lalign = max(lalign, len(completion) + len(type))`. */
  method ComputeLAlign(rawResults: seq<Match>) returns (lalign: nat)
    ensures lalign == LAlign(rawResults)
  {
    lalign := 0;
    var i := 0;
    while i < |rawResults|
      invariant 0 <= i <= |rawResults|
      invariant lalign == LAlign(rawResults[..i])
    {
      assert rawResults[..i + 1][..i] == rawResults[..i];
      var w := |rawResults[i].completion| + |rawResults[i].kind|;
      if w > lalign {
        lalign := w;
      }
      i := i + 1;
    }
    assert rawResults[..i] == rawResults;
  }

  /** The second loop: one display line per record, tracking the longest. */
  method BuildEntries(rawResults: seq<Match>, lalign: nat) returns (results: seq<Entry>, longest: nat)
    ensures results == Entries(rawResults, lalign)
    ensures longest == Longest(results)
  {
    results := [];
    longest := 0;
    var i := 0;
    while i < |rawResults|
      invariant 0 <= i <= |rawResults|
      invariant results == Entries(rawResults[..i], lalign)
      invariant longest == Longest(results)
    {
      var prefix := rawResults[..i + 1];
      assert prefix[..i] == rawResults[..i];
      var completion := DisplayLine(rawResults[i], lalign);
      var next := results + [(completion, rawResults[i].snippet)];
      assert next[..|next| - 1] == results;
      assert next == Entries(prefix, lalign);
      if |completion| > longest {
        longest := |completion|;
      }
      results := next;
      i := i + 1;
    }
    assert rawResults[..i] == rawResults;
  }

  /** The formatting of `on_query_completions` on records already in popup
      order: the two loops, then the padding of the first entry. */
  method FormatCompletions(rawResults: seq<Match>) returns (r: Option<(seq<Entry>, bv32)>)
    ensures r == CompletionList(rawResults)
  {
    var lalign := ComputeLAlign(rawResults);
    var results, longest := BuildEntries(rawResults, lalign);
    if |results| > 0 {
      var completion := PadFirst(results[0].0, longest);
      results := results[0 := (completion, results[0].1)];
      return Some((results, InhibitWordCompletions | InhibitExplicitCompletions));
    }
    return None;
  }

  /** `RustAutocomplete.on_query_completions` for the cursor at zero-based
      row `row0` and column `col`. Outside Rust source nothing happens.
      Otherwise racer runs `complete-with-snippet` there and its records,
      ordered by kind, become the popup; a malformed racer line ends the
      listener with the error. */
  method OnQueryCompletions(isRustSource: bool, racerBin: string, searchPaths: seq<string>,
                            expand: string -> string, environ: map<string, string>, pathSep: char,
                            fileName: Option<string>, content: string, views: seq<Option<string>>,
                            row0: nat, col: nat, process: Launch -> Outcome)
    returns (launch: Option<Launch>, r: Result<Option<(seq<Entry>, bv32)>, ParseError>)
    ensures !isRustSource ==> launch == None && r == Success(None)
    ensures isRustSource ==> launch.Some? && |launch.value.argv| == 6
    ensures isRustSource ==>
      launch.value.argv[..4] == [racerBin, CompleteWithSnippet, IntToString(row0 + 1), IntToString(col)]
    ensures isRustSource ==> IsContextPath(fileName, views, launch.value.argv[4])
    ensures isRustSource ==> launch.value.argv[5] == "-"
    ensures isRustSource ==> IsRacerEnv(launch.value.env, environ, searchPaths, expand, pathSep)
    ensures isRustSource ==> launch.value.stdin == content
    ensures isRustSource && process(launch.value).exitCode != 0 ==> r == Success(None)
    ensures isRustSource && process(launch.value).exitCode == 0 ==>
      match ParseLines(true, process(launch.value).output)
      case Success(records) => r == Success(CompletionList(SortByRank(records)))
      case Failure(e) => r == Failure(e)
  {
    if !isRustSource {
      return None, Success(None);
    }
    var cmdList := CommandArgs(Complete, row0, col);
    var l, rawResults := RunRacer(racerBin, searchPaths, expand, environ, pathSep,
                                  fileName, content, views, cmdList, process);
    launch := Some(l);
    match rawResults
    case Failure(e) =>
      r := Failure(e);
    case Success(records) =>
      var sorted := SortByRank(records);
      var entries := FormatCompletions(sorted);
      r := Success(entries);
  }
}
