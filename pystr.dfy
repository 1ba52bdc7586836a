/** The few Python `str` operations the plugin relies on, with Python's own
    semantics: `startswith`, `endswith`, `find`/`rfind` of one character,
    `split(sep, maxsplit)`, `sep.join(parts)` and right-aligned padding as done
    by `str.format`. Strings are sequences of code points, as in Python 3. */
module PyStr {
  import opened Wrappers

  predicate StartsWith(s: string, prefix: string) {
    |prefix| <= |s| && s[..|prefix|] == prefix
  }

  predicate EndsWith(s: string, suffix: string) {
    |suffix| <= |s| && s[|s| - |suffix|..] == suffix
  }

  /** `s.find(c)`: the first position holding `c`, if any. */
  function IndexOf(s: string, c: char): (r: Option<nat>)
    ensures r.Some? ==> r.value < |s| && s[r.value] == c
  {
    if s == [] then None
    else if s[0] == c then Some(0)
    else match IndexOf(s[1..], c)
      case None => None
      case Some(i) => Some(i + 1)
  }

  /** `find` gives the first occurrence, and finds one whenever there is one. */
  lemma {:induction false} IndexOfFirst(s: string, c: char)
    ensures IndexOf(s, c).Some? ==> c !in s[..IndexOf(s, c).value]
    ensures IndexOf(s, c).None? <==> c !in s
  {
    if s != [] && s[0] != c {
      IndexOfFirst(s[1..], c);
      assert s == [s[0]] + s[1..];
      if IndexOf(s[1..], c).Some? {
        var i := IndexOf(s[1..], c).value;
        assert s[..i + 1] == [s[0]] + s[1..][..i];
      }
    }
  }

  /** `s.rfind(c)`: the last position holding `c`, if any. */
  function LastIndexOf(s: string, c: char): (r: Option<nat>)
    ensures r.Some? ==> r.value < |s| && s[r.value] == c && c !in s[r.value + 1..]
    ensures r.None? <==> c !in s
  {
    if s == [] then None
    else if s[|s| - 1] == c then Some(|s| - 1)
    else match LastIndexOf(s[..|s| - 1], c)
      case None => None
      case Some(i) =>
        assert s[i + 1..] == s[..|s| - 1][i + 1..] + [s[|s| - 1]];
        Some(i)
  }

  /** The position of `c` in `a + [c] + b` when `a` does not hold `c`. */
  lemma {:induction false} IndexOfAfter(a: string, c: char, b: string)
    requires c !in a
    ensures IndexOf(a + [c] + b, c) == Some(|a|)
  {
    if a != [] {
      assert a[0] in a;
      IndexOfAfter(a[1..], c, b);
      assert (a + [c] + b)[1..] == a[1..] + [c] + b;
    }
  }

  /** The position of `c` in `a + [c] + b` when `b` does not hold `c`. */
  lemma {:induction false} LastIndexOfBefore(a: string, c: char, b: string)
    requires c !in b
    ensures LastIndexOf(a + [c] + b, c) == Some(|a|)
  {
    if b != [] {
      assert b[|b| - 1] in b;
      var b' := b[..|b| - 1];
      assert forall x :: x in b' ==> x in b;
      LastIndexOfBefore(a, c, b');
      assert (a + [c] + b)[..|a + [c] + b| - 1] == a + [c] + b';
    }
  }

  /** Joining a first piece onto the others. */
  lemma {:induction false} JoinCons(head: string, rest: seq<string>, sep: string)
    requires rest != []
    ensures Join([head] + rest, sep) == head + sep + Join(rest, sep)
  {
    assert ([head] + rest)[1..] == rest;
  }

  /** `sep.join(parts)`: the parts in order with `sep` between neighbours. */
  function Join(parts: seq<string>, sep: string): (r: string)
    ensures parts != [] ==> StartsWith(r, parts[0])
  {
    if parts == [] then ""
    else if |parts| == 1 then parts[0]
    else parts[0] + sep + Join(parts[1..], sep)
  }

  /** Joining one more piece onto the end. */
  lemma {:induction false} JoinSnoc(parts: seq<string>, last: string, sep: string)
    requires parts != []
    ensures Join(parts + [last], sep) == Join(parts, sep) + sep + last
  {
    if |parts| == 1 {
      JoinCons(parts[0], [last], sep);
      assert parts + [last] == [parts[0]] + [last];
    } else {
      var rest := parts[1..];
      JoinSnoc(rest, last, sep);
      assert parts + [last] == [parts[0]] + (rest + [last]);
      JoinCons(parts[0], rest + [last], sep);
      JoinCons(parts[0], rest, sep);
      assert parts == [parts[0]] + rest;
    }
  }

  /** `s.split(sep, maxsplit)` for a one-character separator and a
      non-negative `maxsplit`: cut at the first `maxsplit` occurrences of `sep`
      from the left; whatever follows the last cut, separators included, is the
      final piece. */
  function Split(s: string, sep: char, maxsplit: nat): (r: seq<string>)
    ensures 1 <= |r| <= maxsplit + 1
    decreases maxsplit
  {
    if maxsplit == 0 then [s]
    else match IndexOf(s, sep)
      case None => [s]
      case Some(i) => [s[..i]] + Split(s[i + 1..], sep, maxsplit - 1)
  }

  /** Splitting loses nothing: joining the pieces with the separator gives back
      the string. */
  lemma {:induction false} JoinSplit(s: string, sep: char, maxsplit: nat)
    ensures Join(Split(s, sep, maxsplit), [sep]) == s
    decreases maxsplit, 1
  {
    if maxsplit > 0 && IndexOf(s, sep).Some? {
      JoinSplitCut(s, sep, maxsplit);
    }
  }

  /** `JoinSplit` when a first cut is made. */
  lemma {:induction false} JoinSplitCut(s: string, sep: char, maxsplit: nat)
    requires maxsplit > 0 && IndexOf(s, sep).Some?
    ensures Join(Split(s, sep, maxsplit), [sep]) == s
    decreases maxsplit, 0
  {
    var i := IndexOf(s, sep).value;
    var head, tail := s[..i], s[i + 1..];
    var m: nat := maxsplit - 1;
    var rest := Split(tail, sep, m);
    assert Split(s, sep, maxsplit) == [head] + rest;
    calc {
      Join([head] + rest, [sep]);
      { JoinCons(head, rest, [sep]); }
      head + [sep] + Join(rest, [sep]);
      { JoinSplit(tail, sep, m); }
      head + [sep] + tail;
      { assert s == head + [sep] + tail; }
      s;
    }
  }

  /** The number of pieces is one more than the number of cuts: every
      occurrence of the separator, but no more than `maxsplit` of them. */
  lemma {:induction false} SplitCount(s: string, sep: char, maxsplit: nat)
    ensures |Split(s, sep, maxsplit)| ==
      1 + (if multiset(s)[sep] <= maxsplit then multiset(s)[sep] else maxsplit)
    decreases maxsplit
  {
    if maxsplit > 0 && IndexOf(s, sep).Some? {
      var i := IndexOf(s, sep).value;
      var head, tail := s[..i], s[i + 1..];
      var m: nat := maxsplit - 1;
      assert s == head + [sep] + tail;
      assert sep !in head by { IndexOfFirst(s, sep); }
      var n := multiset(tail)[sep];
      calc {
        |Split(s, sep, maxsplit)|;
        { SplitCut(head, sep, tail, maxsplit); }
        |[head] + Split(tail, sep, m)|;
        1 + |Split(tail, sep, m)|;
        { SplitCount(tail, sep, m); }
        1 + 1 + (if n <= m then n else m);
        { CountAfterCut(head, sep, tail); }
        1 + (if multiset(s)[sep] <= maxsplit then multiset(s)[sep] else maxsplit);
      }
    } else if maxsplit > 0 {
      IndexOfFirst(s, sep);
      assert multiset(s)[sep] == 0;
    }
  }

  /** Cutting at the first separator removes one occurrence of it. */
  lemma CountAfterCut(head: string, sep: char, tail: string)
    requires sep !in head
    ensures multiset(head + [sep] + tail)[sep] == multiset(tail)[sep] + 1
  {
    assert multiset(head + [sep] + tail) == multiset(head) + multiset{sep} + multiset(tail);
    assert multiset(head)[sep] == 0;
  }

  /** `split` undoes `join`: joining pieces free of the separator and splitting
      the result with a large enough `maxsplit` gives the pieces back. When
      `maxsplit` is exactly one less than the number of pieces, the last piece
      may itself hold the separator and still comes back whole. */
  lemma {:induction false} SplitJoin(parts: seq<string>, sep: char, maxsplit: nat)
    requires |parts| >= 1 && maxsplit >= |parts| - 1
    requires forall i :: 0 <= i < |parts| - 1 ==> sep !in parts[i]
    requires maxsplit > |parts| - 1 ==> sep !in parts[|parts| - 1]
    ensures Split(Join(parts, [sep]), sep, maxsplit) == parts
  {
    if |parts| == 1 {
      IndexOfFirst(parts[0], sep);
    } else {
      var head, rest := parts[0], parts[1..];
      var m: nat := maxsplit - 1;
      var tail := Join(rest, [sep]);
      calc {
        Split(Join(parts, [sep]), sep, maxsplit);
        { assert parts == [head] + rest; JoinCons(head, rest, [sep]); }
        Split(head + [sep] + tail, sep, maxsplit);
        { SplitCut(head, sep, tail, maxsplit); }
        [head] + Split(tail, sep, m);
        { SplitJoin(rest, sep, m); }
        [head] + rest;
        { assert parts == [head] + rest; }
        parts;
      }
    }
  }

  /** With `maxsplit` equal to the number of separator-free pieces before it,
      a final piece comes back whole, separators and all. */
  lemma SplitJoinRemainder(parts: seq<string>, last: string, sep: char)
    requires parts != []
    requires forall i :: 0 <= i < |parts| ==> sep !in parts[i]
    ensures Split(Join(parts + [last], [sep]), sep, |parts|) == parts + [last]
  {
    var all := parts + [last];
    assert forall i :: 0 <= i < |all| - 1 ==> all[i] == parts[i];
    SplitJoin(all, sep, |parts|);
  }

  /** The first cut of `split` on `head + [sep] + tail` when `head` is free of
      the separator. */
  lemma SplitCut(head: string, sep: char, tail: string, maxsplit: nat)
    requires sep !in head && maxsplit > 0
    ensures Split(head + [sep] + tail, sep, maxsplit) == [head] + Split(tail, sep, maxsplit - 1)
  {
    var s := head + [sep] + tail;
    IndexOfAfter(head, sep, tail);
    assert s[..|head|] == head;
    assert s[|head| + 1..] == tail;
  }

  /** `n` spaces. */
  function Spaces(n: nat): (r: string)
    ensures |r| == n && forall i :: 0 <= i < n ==> r[i] == ' '
  {
    seq(n, _ => ' ')
  }

  /** `"{0:>{1}}".format(s, width)`: `s` right-aligned in a field of `width`
      code points; a width at or below the length of `s` leaves it unchanged. */
  function RightAlign(s: string, width: int): (r: string)
    ensures |r| == if width > |s| then width else |s|
    ensures EndsWith(r, s)
    ensures forall i :: 0 <= i < |r| - |s| ==> r[i] == ' '
  {
    var pad := if width > |s| then width - |s| else 0;
    var r := Spaces(pad) + s;
    assert r[|r| - |s|..] == s;
    r
  }
}
