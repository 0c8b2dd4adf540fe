/**
  The two `os.path` functions the report generator calls, as the POSIX
  implementation (`posixpath`) defines them for `str` arguments, with `os.sep`
  fixed to '/'.
 */
module PosixPath {

  /** `os.sep` on POSIX systems. */
  const Sep: char := '/'

  /**
    `os.path.basename(p)`: the text after the last separator (all of `p` when
    it has none, "" when `p` ends with one).
   */
  function Basename(p: string): (r: string)
    ensures Sep !in r
    ensures |r| <= |p|
  {
    if p == [] then ""
    else if p[|p| - 1] == Sep then ""
    else Basename(p[..|p| - 1]) + [p[|p| - 1]]
  }

  /**
    The basename is the longest separator-free suffix: it ends `p`, and it is
    either all of `p` or preceded by a separator.
   */
  lemma {:induction false} BasenameIsLastSegment(p: string)
    ensures p == p[..|p| - |Basename(p)|] + Basename(p)
    ensures |Basename(p)| < |p| ==> p[|p| - |Basename(p)| - 1] == Sep
  {
    if p != [] && p[|p| - 1] != Sep {
      var init := p[..|p| - 1];
      BasenameIsLastSegment(init);
      assert Basename(p) == Basename(init) + [p[|p| - 1]];
      assert p[..|p| - |Basename(p)|] == init[..|init| - |Basename(init)|];
      assert p == init + [p[|p| - 1]];
    }
  }

  /**
    Two-argument `os.path.join(a, b)`: an absolute `b` replaces `a`; otherwise
    `b` is appended to `a`, with a separator in between unless `a` is empty
    or already ends with one.
   */
  function PathJoin(a: string, b: string): (r: string)
    ensures |b| <= |r|
    ensures |b| > 0 && b[0] == Sep ==> r == b
    ensures !(|b| > 0 && b[0] == Sep) ==> |r| == |a| + |b| || |r| == |a| + 1 + |b|
  {
    if |b| > 0 && b[0] == Sep then b
    else if a == [] || a[|a| - 1] == Sep then a + b
    else a + [Sep] + b
  }

  /**
    A suffix free of separators and preceded by a separator (or by nothing)
    is the basename: the converse direction of `Basename`'s contract.
   */
  lemma {:induction false} BasenameOfSuffix(d: string, name: string)
    requires Sep !in name
    requires d == [] || d[|d| - 1] == Sep
    ensures Basename(d + name) == name
  {
    if name == [] {
      assert d + name == d;
    } else {
      var p, init, last := d + name, name[..|name| - 1], name[|name| - 1];
      assert p[|p| - 1] == last && last != Sep;
      assert p[..|p| - 1] == d + init;
      assert Sep !in init by {
        forall k | 0 <= k < |init| ensures init[k] != Sep {
          assert init[k] == name[k];
        }
      }
      BasenameOfSuffix(d, init);
      assert Basename(p) == init + [last];
      assert init + [last] == name;
    }
  }

  /**
    For a relative `b` the joined path is `a` then `b`, with exactly one
    separator put between them, and only when `a` is non-empty and does not
    already end with one. In every case it ends with `b`.
   */
  lemma {:induction false} PathJoinParts(a: string, b: string)
    ensures !(|b| > 0 && b[0] == Sep) ==> PathJoin(a, b) == a + b || PathJoin(a, b) == a + [Sep] + b
    ensures |PathJoin(a, b)| == |a| + 1 + |b| <==> !(|b| > 0 && b[0] == Sep) && a != [] && a[|a| - 1] != Sep
    ensures !(|b| > 0 && b[0] == Sep) ==> |a| <= |PathJoin(a, b)| && PathJoin(a, b)[..|a|] == a
    ensures PathJoin(a, b)[|PathJoin(a, b)| - |b|..] == b
  {
  }

  /** The basename of `os.path.join(d, name)` is `name` for a separator-free name. */
  lemma {:induction false} BasenameOfJoin(d: string, name: string)
    requires Sep !in name
    ensures Basename(PathJoin(d, name)) == name
  {
    if d == [] || d[|d| - 1] == Sep {
      BasenameOfSuffix(d, name);
    } else {
      BasenameOfSuffix(d + [Sep], name);
      assert d + [Sep] + name == PathJoin(d, name);
    }
  }
}
