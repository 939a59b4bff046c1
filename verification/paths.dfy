/** POSIX path handling as Python's `os.path.split` and `os.path.join` do it. */
module Paths {
  import opened Wrappers

  /** A text made of slashes only (the empty text included). */
  predicate AllSlashes(s: string) {
    forall k :: 0 <= k < |s| ==> s[k] == '/'
  }

  /** Python's `p.rfind('/')`: the position of the last slash. */
  function LastSlash(p: string): (r: Option<nat>)
    ensures r.Some? ==> r.value < |p| && p[r.value] == '/' && '/' !in p[r.value + 1..]
    ensures r.None? <==> '/' !in p
  {
    if |p| == 0 then None
    else if p[|p| - 1] == '/' then Some(|p| - 1)
    else
      var r := LastSlash(p[..|p| - 1]);
      assert r.Some? ==> p[r.value + 1..] == p[..|p| - 1][r.value + 1..] + [p[|p| - 1]];
      assert r.None? ==> p == p[..|p| - 1] + [p[|p| - 1]];
      r
  }

  /** Python's `s.rstrip('/')`. */
  function TrimSlashes(s: string): (r: string)
    ensures |r| <= |s| && r == s[..|r|] && AllSlashes(s[|r|..])
    ensures r == [] || r[|r| - 1] != '/'
  {
    if |s| > 0 && s[|s| - 1] == '/' then TrimSlashes(s[..|s| - 1]) else s
  }

  /** `os.path.split(p)`: the tail is everything after the last slash; the head is
      everything before it, with its trailing slashes dropped unless it consists
      of slashes only. */
  function PathSplit(p: string): (r: (string, string))
    ensures '/' !in r.1 && |r.1| <= |p| && r.1 == p[|p| - |r.1|..]
    ensures |r.1| < |p| ==> p[|p| - |r.1| - 1] == '/'
    ensures |r.0| + |r.1| <= |p| && r.0 == p[..|r.0|]
    ensures r.0 == [] || r.0[|r.0| - 1] != '/' || AllSlashes(r.0)
    ensures AllSlashes(p[|r.0|..|p| - |r.1|])
    ensures AllSlashes(p[..|p| - |r.1|]) ==> r.0 == p[..|p| - |r.1|]
    ensures !AllSlashes(p[..|p| - |r.1|]) ==> r.0 != [] && r.0[|r.0| - 1] != '/'
  {
    var i := match LastSlash(p) case None => 0 case Some(j) => j + 1;
    var head := p[..i];
    var tail := p[i..];
    if head != [] && !AllSlashes(head) then
      var h := TrimSlashes(head);
      assert p[|h|..i] == head[|h|..];
      (h, tail)
    else
      assert p[|head|..i] == [];
      (head, tail)
  }

  /** `os.path.join(a, b)` for two components. */
  function PathJoin(a: string, b: string): (r: string)
    ensures |b| > 0 && b[0] == '/' ==> r == b
    ensures |r| >= |b| && r[|r| - |b|..] == b
  {
    if |b| > 0 && b[0] == '/' then b
    else if a == [] || a[|a| - 1] == '/' then a + b
    else a + "/" + b
  }

  /** Splitting a joined path gives back its directory and file name, for a
      directory that does not end with a slash and a name without one. */
  lemma SplitJoinedPath(d: string, f: string)
    requires |d| > 0 && d[|d| - 1] != '/'
    requires '/' !in f
    ensures PathJoin(d, f) == d + "/" + f
    ensures PathSplit(d + "/" + f) == (d, f)
  {
    var p := d + "/" + f;
    assert p[|d|] == '/' && p[|d| + 1..] == f;
    assert LastSlash(p) == Some(|d|) by {
      LastSlashAfter(d + "/", f);
    }
    assert p[..|d| + 1] == d + "/";
    assert !AllSlashes(d + "/") by {
      assert (d + "/")[|d| - 1] == d[|d| - 1];
    }
    TrimOneSlash(d);
  }

  lemma {:induction false} LastSlashAfter(a: string, f: string)
    requires |a| > 0 && a[|a| - 1] == '/'
    requires '/' !in f
    ensures LastSlash(a + f) == Some(|a| - 1)
  {
    if |f| > 0 {
      var s := a + f;
      assert s[..|s| - 1] == a + f[..|f| - 1];
      assert s[|s| - 1] == f[|f| - 1];
      LastSlashAfter(a, f[..|f| - 1]);
    } else {
      assert a + f == a;
    }
  }

  lemma TrimOneSlash(d: string)
    requires |d| > 0 && d[|d| - 1] != '/'
    ensures TrimSlashes(d + "/") == d
  {
    assert (d + "/")[..|d|] == d;
  }
}
