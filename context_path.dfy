/** `determine_context_path`: the file name racer is told the buffer lives
    at. The editor's views are reduced to their file names (`None` for a view
    never saved). */
module ContextPath {
  import opened Wrappers
  import opened PyStr
  import opened PosixPath

  /** The name given when no better path is known; racer never reads it,
      since the buffer text always arrives on standard input. */
  const Dummy: string := "-"

  /** The hypothetical file racer is pointed at beside an open Rust file. */
  const TransientName: string := "_transient.rs"

  /** `os.path.join(os.path.dirname(p), "_transient.rs")`. */
  function TransientPath(p: string): (r: string)
    ensures EndsWith(r, TransientName)
  {
    JoinPath(Dirname(p), TransientName)
  }

  /** A file `dir/name` yields `dir/_transient.rs`: the transient file sits
      in the same directory as the Rust file it comes from. */
  lemma TransientSibling(dir: string, name: string)
    requires Sep !in name
    requires dir != [] && dir[|dir| - 1] != Sep
    ensures TransientPath(dir + [Sep] + name) == dir + [Sep] + TransientName
  {
    DirnameOfChild(dir, name);
  }

  /** A file directly under the root yields `/_transient.rs`. */
  lemma TransientAtRoot(name: string)
    requires Sep !in name
    ensures TransientPath([Sep] + name) == [Sep] + TransientName
  {
    DirnameOfRootChild(name);
  }

  /** The candidate paths, one per open view whose file name ends in `.rs`,
      in view order (the three list comprehensions of the source). */
  function Candidates(views: seq<Option<string>>): (r: seq<string>)
    ensures |r| <= |views|
  {
    if views == [] then [] else Produced(views[0]) + Candidates(views[1..])
  }

  /** What one view contributes to the candidates. */
  function Produced(v: Option<string>): (r: seq<string>)
    ensures |r| <= 1
  {
    match v
    case Some(p) => if EndsWith(p, ".rs") then [TransientPath(p)] else []
    case None => []
  }

  /** Whether view `v` yields candidate `q`. */
  predicate Yields(v: Option<string>, q: string) {
    v.Some? && EndsWith(v.value, ".rs") && q == TransientPath(v.value)
  }

  /** A path is a candidate exactly when some open view's file name ends in
      `.rs` and lies in the candidate's directory. */
  lemma {:induction false} CandidatesFromViews(views: seq<Option<string>>, q: string)
    ensures q in Candidates(views) <==> exists i :: 0 <= i < |views| && Yields(views[i], q)
  {
    if views != [] {
      var rest := views[1..];
      CandidatesFromViews(rest, q);
      assert Candidates(views) == Produced(views[0]) + Candidates(rest);
      assert q in Produced(views[0]) <==> Yields(views[0], q);
      if i :| 0 <= i < |views| && Yields(views[i], q) {
        if i > 0 {
          assert rest[i - 1] == views[i];
        }
      }
      if j :| 0 <= j < |rest| && Yields(rest[j], q) {
        assert views[j + 1] == rest[j];
      }
    }
  }

  /** How often each candidate occurs: the `dirs` dictionary the source
      counts into. */
  ghost predicate IsCount(dirs: map<string, nat>, items: seq<string>) {
    && (forall q :: q in dirs <==> q in multiset(items))
    && (forall q :: q in dirs ==> dirs[q] == multiset(items)[q])
  }

  /** What the source promises of the path it returns: the view's own file
      name when it has one; otherwise `"-"` when no open view is a Rust file;
      otherwise a candidate that no other candidate outnumbers. Which of
      several equally frequent candidates wins depends on dictionary order,
      which the source leaves unspecified. */
  ghost predicate IsContextPath(fileName: Option<string>, views: seq<Option<string>>, p: string) {
    match fileName
    case Some(name) => p == name
    case None =>
      var cands := Candidates(views);
      if cands == [] then p == Dummy
      else p in cands && forall q :: q in cands ==> multiset(cands)[q] <= multiset(cands)[p]
  }

  /** The counting loop: `dirs[d] = dirs.get(d, 0) + 1` for each candidate. */
  method CountOccurrences(items: seq<string>) returns (dirs: map<string, nat>)
    ensures IsCount(dirs, items)
  {
    dirs := map[];
    var i := 0;
    while i < |items|
      invariant 0 <= i <= |items|
      invariant IsCount(dirs, items[..i])
    {
      var item := items[i];
      assert items[..i + 1] == items[..i] + [item];
      if item !in dirs {
        dirs := dirs[item := 1];
      } else {
        dirs := dirs[item := dirs[item] + 1];
      }
      i := i + 1;
    }
    assert items[..i] == items;
  }

  /** `max(dirs, key=dirs.get)`: visits the keys in some order and keeps the
      first of greatest count. */
  method MostFrequent(dirs: map<string, nat>) returns (best: string)
    requires dirs != map[]
    ensures best in dirs
    ensures forall q :: q in dirs ==> dirs[q] <= dirs[best]
  {
    var keys := dirs.Keys;
    assert exists k :: k in keys by {
      var k :| k in dirs;
      assert k in keys;
    }
    best :| best in keys;
    keys := keys - {best};
    while keys != {}
      invariant keys <= dirs.Keys && best in dirs
      invariant forall q :: q in dirs && q !in keys ==> dirs[q] <= dirs[best]
      decreases keys
    {
      var key :| key in keys;
      if dirs[key] > dirs[best] {
        best := key;
      }
      keys := keys - {key};
    }
  }

  method DetermineContextPath(fileName: Option<string>, views: seq<Option<string>>)
    returns (p: string)
    ensures IsContextPath(fileName, views, p)
  {
    if fileName.Some? {
      return fileName.value;
    }
    var directories := Candidates(views);
    if |directories| == 0 {
      return Dummy;
    }
    var dirs := CountOccurrences(directories);
    assert directories[0] in multiset(directories);
    p := MostFrequent(dirs);
  }
}
