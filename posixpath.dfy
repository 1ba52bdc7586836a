/** `os.path.dirname` and `os.path.join` with POSIX semantics (`/` is the only
    separator), used to place a transient file beside the other open Rust
    files. */
module PosixPath {
  import opened Wrappers
  import opened PyStr

  const Sep: char := '/'

  predicate AllSeps(s: string) {
    forall i :: 0 <= i < |s| ==> s[i] == Sep
  }

  /** `s.rstrip('/')`. */
  function RStripSeps(s: string): (r: string)
    ensures |r| <= |s| && r == s[..|r|]
    ensures r == [] || r[|r| - 1] != Sep
  {
    if s != [] && s[|s| - 1] == Sep then RStripSeps(s[..|s| - 1]) else s
  }

  /** `os.path.dirname(p)`: everything up to the last separator, with trailing
      separators removed unless nothing but separators remains. */
  function Dirname(p: string): (r: string)
    ensures |r| <= |p| && r == p[..|r|]
  {
    var i := match LastIndexOf(p, Sep) case None => 0 case Some(k) => k + 1;
    var head := p[..i];
    if head != [] && !AllSeps(head) then RStripSeps(head) else head
  }

  /** `os.path.join(a, b)`: an absolute `b` replaces `a`; otherwise one
      separator goes between them unless `a` is empty or already ends in one. */
  function JoinPath(a: string, b: string): (r: string)
    ensures StartsWith(b, [Sep]) ==> r == b
    ensures !StartsWith(b, [Sep]) ==> EndsWith(r, b) && StartsWith(r, a)
  {
    if StartsWith(b, [Sep]) then b
    else if a == [] || a[|a| - 1] == Sep then a + b
    else a + [Sep] + b
  }

  /** The directory of a file `dir/name` is `dir`. */
  lemma DirnameOfChild(dir: string, name: string)
    requires Sep !in name
    requires dir != [] && dir[|dir| - 1] != Sep
    ensures Dirname(dir + [Sep] + name) == dir
  {
    var p := dir + [Sep] + name;
    LastIndexOfBefore(dir, Sep, name);
    var head := p[..|dir| + 1];
    assert head == dir + [Sep];
    assert head[|dir| - 1] != Sep;
    assert RStripSeps(head) == RStripSeps(dir);
  }

  /** A bare file name has no directory. */
  lemma DirnameOfBareName(name: string)
    requires Sep !in name
    ensures Dirname(name) == ""
  {
  }

  /** A file directly under the root has the root as its directory. */
  lemma DirnameOfRootChild(name: string)
    requires Sep !in name
    ensures Dirname([Sep] + name) == [Sep]
  {
    LastIndexOfBefore([], Sep, name);
    assert ([Sep] + name)[..1] == [Sep];
  }
}
