/**
  The few Python `str` operations the report generator relies on, as functions
  over `string` (= `seq<char>`): repetition `s * n`, `s.replace(pat, "")`,
  `s.count(c)` for a one-character `c`, and `sep.join(parts)`.
 */
module PyStrings {

  /** `s * n` in Python: `n` copies of `s`; a count of zero or less gives "". */
  function Repeat(s: string, n: int): (r: string)
    ensures |r| == if n <= 0 then 0 else n * |s|
    ensures forall c :: c in r ==> c in s
    ensures |s| == 1 ==> forall k :: 0 <= k < |r| ==> r[k] == s[0]
    decreases if n <= 0 then 0 else n
  {
    if n <= 0 then "" else Repeat(s, n - 1) + s
  }

  /** Unit `k` (counting from 0) of `s * n` is `s` itself. */
  lemma {:induction false} RepeatUnit(s: string, n: nat, k: nat)
    requires k < n
    ensures |Repeat(s, n)| == n * |s|
    ensures k * |s| + |s| <= |Repeat(s, n)|
    ensures Repeat(s, n)[k * |s| .. k * |s| + |s|] == s
  {
    if k < n - 1 {
      RepeatUnit(s, n - 1, k);
      assert (n - 1) * |s| == n * |s| - |s|;
      assert k * |s| + |s| <= (n - 1) * |s| by {
        assert (n - 1 - k) * |s| >= |s|;
        assert (n - 1 - k) * |s| == (n - 1) * |s| - k * |s|;
      }
      assert Repeat(s, n) == Repeat(s, n - 1) + s;
    } else {
      assert k * |s| == (n - 1) * |s|;
      assert (n - 1) * |s| == n * |s| - |s|;
    }
  }

  /** There is an occurrence of `pat` in `s` starting at index `i`. */
  predicate OccursAt(s: string, pat: string, i: int)
  {
    0 <= i && i + |pat| <= |s| && s[i .. i + |pat|] == pat
  }

  /**
    `s.replace(pat, "")`: scanning left to right, every non-overlapping
    occurrence of `pat` is deleted, not only a leading one. Python leaves the
    string unchanged when `pat` is empty.
   */
  function RemoveAll(s: string, pat: string): (r: string)
    ensures |r| <= |s|
    ensures pat == "" ==> r == s
    ensures forall c :: c in r ==> c in s
    decreases |s|
  {
    if pat == "" || |s| < |pat| then s
    else if s[..|pat|] == pat then RemoveAll(s[|pat|..], pat)
    else [s[0]] + RemoveAll(s[1..], pat)
  }

  /** Removing a pattern that never occurs leaves the string as it was. */
  lemma {:induction false} RemoveAllAbsent(s: string, pat: string)
    requires pat != ""
    requires forall i :: !OccursAt(s, pat, i)
    ensures RemoveAll(s, pat) == s
  {
    if |s| >= |pat| {
      assert !OccursAt(s, pat, 0);
      assert s[..|pat|] != pat;
      forall i ensures !OccursAt(s[1..], pat, i) {
        if 0 <= i && i + |pat| <= |s| - 1 {
          assert s[1..][i .. i + |pat|] == s[i + 1 .. i + 1 + |pat|];
          assert !OccursAt(s, pat, i + 1);
        }
      }
      RemoveAllAbsent(s[1..], pat);
      assert s == [s[0]] + s[1..];
    }
  }

  /** Every occurrence of `pat` is removed, a leading one included. */
  lemma {:induction false} RemoveAllLeading(pat: string, t: string)
    requires pat != ""
    ensures RemoveAll(pat + t, pat) == RemoveAll(t, pat)
  {
    assert (pat + t)[..|pat|] == pat;
    assert (pat + t)[|pat|..] == t;
  }

  /**
    An occurrence of `pat` after a prefix `x` that starts none is removed as
    well, not only a leading one: the prefix is kept and the scan resumes
    after the occurrence.
   */
  lemma {:induction false} RemoveAllMiddle(x: string, pat: string, y: string)
    requires pat != ""
    requires forall i :: 0 <= i < |x| ==> !OccursAt(x + pat + y, pat, i)
    ensures RemoveAll(x + pat + y, pat) == x + RemoveAll(y, pat)
  {
    if x == [] {
      assert x + pat + y == pat + y;
      RemoveAllLeading(pat, y);
    } else {
      var s, rest, r := x + pat + y, x[1..] + pat + y, RemoveAll(y, pat);
      assert s[0] == x[0] && s[1..] == rest;
      RemoveAllSkip(s, pat);
      forall i | 0 <= i < |x| - 1 ensures !OccursAt(rest, pat, i) {
        OccursInTail(s, pat, i);
      }
      RemoveAllMiddle(x[1..], pat, y);
      assert [x[0]] + (x[1..] + r) == x + r;
    }
  }

  /** Where no occurrence starts, the first character is kept and the scan moves on. */
  lemma {:induction false} RemoveAllSkip(s: string, pat: string)
    requires pat != "" && |pat| <= |s|
    requires !OccursAt(s, pat, 0)
    ensures RemoveAll(s, pat) == [s[0]] + RemoveAll(s[1..], pat)
  {
  }

  /** An occurrence in `s[1..]` is an occurrence in `s`, one place further on. */
  lemma {:induction false} OccursInTail(s: string, pat: string, i: nat)
    requires s != []
    ensures OccursAt(s[1..], pat, i) <==> OccursAt(s, pat, i + 1)
  {
    if i + |pat| <= |s| - 1 {
      assert s[1..][i .. i + |pat|] == s[i + 1 .. i + 1 + |pat|];
    }
  }

  /** `s.count(c)` for a single character `c`. */
  function Count(s: string, c: char): (n: nat)
    ensures n <= |s|
    ensures n == 0 <==> c !in s
  {
    if s == [] then 0
    else (if s[0] == c then 1 else 0) + Count(s[1..], c)
  }

  /** Counting distributes over concatenation. */
  lemma {:induction false} CountConcat(a: string, b: string, c: char)
    ensures Count(a + b, c) == Count(a, c) + Count(b, c)
  {
    if a != [] {
      assert (a + b)[0] == a[0];
      assert (a + b)[1..] == a[1..] + b;
      CountConcat(a[1..], b, c);
    } else {
      assert a + b == b;
    }
  }

  /** `sep.join(parts)`: the parts with `sep` between neighbours; [] gives "". */
  function Join(sep: string, parts: seq<string>): (r: string)
    ensures parts == [] ==> r == ""
    ensures |parts| == 1 ==> r == parts[0]
    ensures forall c :: c in r ==> c in sep || exists k :: 0 <= k < |parts| && c in parts[k]
  {
    if |parts| == 0 then ""
    else if |parts| == 1 then parts[0]
    else Join(sep, parts[..|parts| - 1]) + sep + parts[|parts| - 1]
  }

  /** Joining two non-empty lists is joining their two joins. */
  lemma {:induction false} JoinAppend(sep: string, a: seq<string>, b: seq<string>)
    requires a != [] && b != []
    ensures Join(sep, a + b) == Join(sep, a) + sep + Join(sep, b)
  {
    if |b| == 1 {
      assert (a + b)[..|a + b| - 1] == a;
    } else {
      assert (a + b)[..|a + b| - 1] == a + b[..|b| - 1];
      JoinAppend(sep, a, b[..|b| - 1]);
    }
  }

  /**
    When no part contains the character `c`, joining with the one-character
    separator `[c]` yields exactly one `c` per gap: the joined text has
    `|parts|` lines.
   */
  lemma {:induction false} JoinSeparatorCount(c: char, parts: seq<string>)
    requires parts != []
    requires forall k :: 0 <= k < |parts| ==> c !in parts[k]
    ensures Count(Join([c], parts), c) == |parts| - 1
  {
    if |parts| > 1 {
      var init := parts[..|parts| - 1];
      JoinSeparatorCount(c, init);
      CountConcat(Join([c], init), [c], c);
      CountConcat(Join([c], init) + [c], parts[|parts| - 1], c);
    }
  }
}
