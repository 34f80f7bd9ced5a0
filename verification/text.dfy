/** The few Python string operations the advice tail relies on:
    `str.split(sep)[0]`, `str.strip()` and substring occurrence. */
module Text {
  import opened Wrappers

  /** `pat` occurs in `s` starting at index `i`. */
  predicate Occurs(s: string, pat: string, i: int)
  {
    0 <= i && i + |pat| <= |s| && s[i..i + |pat|] == pat
  }

  /** Python's `pat in s`. */
  predicate Contains(s: string, pat: string)
  {
    exists i :: 0 <= i <= |s| && Occurs(s, pat, i)
  }

  /** The first index at or after `from` where `pat` occurs, if any. */
  function FindFrom(s: string, pat: string, from: nat): (r: Option<nat>)
    ensures r.Some? ==> from <= r.value && Occurs(s, pat, r.value)
    ensures r.Some? ==> forall j :: from <= j < r.value ==> !Occurs(s, pat, j)
    ensures r.None? ==> forall j :: from <= j ==> !Occurs(s, pat, j)
    decreases |s| - from
  {
    if from + |pat| > |s| then None
    else if s[from..from + |pat|] == pat then Some(from)
    else FindFrom(s, pat, from + 1)
  }

  /** Python's `s.split(sep)[0]`: everything before the first `sep`, or all
      of `s` when `sep` does not occur. Python rejects an empty separator. */
  function SplitHead(s: string, sep: string): (r: string)
    requires |sep| > 0
    ensures r <= s
    ensures forall j :: 0 <= j < |r| ==> !Occurs(s, sep, j)
    ensures |r| < |s| ==> Occurs(s, sep, |r|)
    ensures r == s <==> !Contains(s, sep)
  {
    match FindFrom(s, sep, 0)
    case None => s
    case Some(i) => s[..i]
  }

  /** The head of a split holds no separator. */
  lemma SplitHeadHasNoSeparator(s: string, sep: string)
    requires |sep| > 0
    ensures !Contains(SplitHead(s, sep), sep)
  {
    var r := SplitHead(s, sep);
    forall j | 0 <= j <= |r| ensures !Occurs(r, sep, j) {
      if j + |sep| <= |r| {
        assert r[j..j + |sep|] == s[j..j + |sep|];
        assert !Occurs(s, sep, j);
      }
    }
  }

  /** The characters for which Python's `str.isspace()` holds. */
  predicate IsSpace(c: char)
  {
    var n := c as int;
    (9 <= n <= 13) || (28 <= n <= 32) || n == 0x85 || n == 0xA0 || n == 0x1680
    || (0x2000 <= n <= 0x200A) || n == 0x2028 || n == 0x2029 || n == 0x202F
    || n == 0x205F || n == 0x3000
  }

  /** Every character of `t` is whitespace. */
  predicate AllSpace(t: string)
  {
    forall j :: 0 <= j < |t| ==> IsSpace(t[j])
  }

  /** Python's `s.lstrip()`: a suffix of `s`, with whitespace only before it. */
  function StripLeading(s: string): (r: string)
    ensures |r| <= |s| && r == s[|s| - |r|..]
    ensures AllSpace(s[..|s| - |r|])
    ensures r == [] || !IsSpace(r[0])
  {
    if |s| > 0 && IsSpace(s[0]) then
      var r := StripLeading(s[1..]);
      assert s[..|s| - |r|] == [s[0]] + s[1..][..|s| - 1 - |r|];
      r
    else s
  }

  /** Python's `s.rstrip()`: a prefix of `s`, with whitespace only after it. */
  function StripTrailing(s: string): (r: string)
    ensures r <= s
    ensures AllSpace(s[|r|..])
    ensures r == [] || !IsSpace(r[|r| - 1])
  {
    if |s| > 0 && IsSpace(s[|s| - 1]) then
      var r := StripTrailing(s[..|s| - 1]);
      assert s[|r|..] == s[..|s| - 1][|r|..] + [s[|s| - 1]];
      r
    else s
  }

  /** `r` is `s[a..a + |r|]` and everything of `s` around it is whitespace. */
  predicate TrimmedAt(s: string, r: string, a: int)
  {
    0 <= a && a + |r| <= |s| && s[a..a + |r|] == r && AllSpace(s[..a]) && AllSpace(s[a + |r|..])
  }

  /** Python's `s.strip()`: `s` without its leading and trailing whitespace.
      Only whitespace is removed, and what is left neither starts nor ends
      with whitespace. */
  function Strip(s: string): (r: string)
    ensures exists a :: 0 <= a <= |s| && TrimmedAt(s, r, a)
    ensures r == [] || (!IsSpace(r[0]) && !IsSpace(r[|r| - 1]))
  {
    var t := StripLeading(s);
    var r := StripTrailing(t);
    var a := |s| - |t|;
    assert s[a..a + |r|] == r;
    assert s[a + |r|..] == t[|r|..];
    assert TrimmedAt(s, r, a);
    r
  }

  /** The stripped text is an infix of the original. */
  lemma StripIsInfix(s: string)
    ensures Contains(s, Strip(s))
  {
    var a :| 0 <= a <= |s| && TrimmedAt(s, Strip(s), a);
    assert Occurs(s, Strip(s), a);
  }

  /** An occurrence inside an infix is an occurrence in the whole string. */
  lemma OccursInInfix(s: string, t: string, a: int, pat: string, j: int)
    requires Occurs(s, t, a)
    requires Occurs(t, pat, j)
    ensures Occurs(s, pat, a + j)
  {
    var u, v := s[a + j..a + j + |pat|], t[j..j + |pat|];
    assert forall k :: 0 <= k < |pat| ==> u[k] == v[k];
    assert u == v;
  }

  /** An occurrence that ends inside the left part of a join is one of the left part. */
  lemma OccursInLeft(a: string, b: string, pat: string, i: int)
    requires 0 <= i && i + |pat| <= |a|
    ensures Occurs(a + b, pat, i) ==> Occurs(a, pat, i)
  {
    assert (a + b)[i..i + |pat|] == a[i..i + |pat|];
  }

  /** An occurrence that starts inside the right part of a join is one of the right part. */
  lemma OccursInRight(a: string, b: string, pat: string, i: int)
    requires |a| <= i
    ensures Occurs(a + b, pat, i) ==> Occurs(b, pat, i - |a|)
  {
    if i + |pat| <= |a + b| {
      assert (a + b)[i..i + |pat|] == b[i - |a|..i - |a| + |pat|];
    }
  }

  /** A pattern absent from a string is absent from every infix of it. */
  lemma AbsentFromInfix(s: string, t: string, pat: string)
    requires Contains(s, t)
    requires !Contains(s, pat)
    ensures !Contains(t, pat)
  {
    var a :| 0 <= a <= |s| && Occurs(s, t, a);
    forall j | 0 <= j <= |t| && Occurs(t, pat, j)
      ensures Occurs(s, pat, a + j)
    {
      OccursInInfix(s, t, a, pat, j);
    }
  }

  /** An infix of a prefix is an infix of the whole. */
  lemma PrefixInfix(s: string, p: string, t: string)
    requires p <= s
    requires Contains(p, t)
    ensures Contains(s, t)
  {
    var a :| 0 <= a <= |p| && Occurs(p, t, a);
    assert s[a..a + |t|] == p[a..a + |t|];
    assert 0 <= a <= |s| && Occurs(s, t, a);
  }

  /** The tail of a concatenation is an infix of it. */
  lemma SuffixIsInfix(a: string, t: string)
    ensures Contains(a + t, t)
  {
    var s := a + t;
    assert s[|a|..|a| + |t|] == t;
    assert 0 <= |a| <= |s| && Occurs(s, t, |a|);
  }

  /** When `f` ends with `l`, the text from `l` across the next two parts is
      an infix of `f + g + m + t + c`. */
  lemma JoinAcrossIsInfix(f: string, l: string, g: string, m: string, t: string, c: string)
    requires |l| <= |f| && f[|f| - |l|..] == l
    ensures Contains(f + g + m + t + c, l + g + m)
  {
    var f0 := f[..|f| - |l|];
    assert f == f0 + l;
    assert f + g + m + t + c == f0 + (l + g + m) + (t + c);
    MiddleIsInfix(f0, l + g + m, t + c);
  }

  /** The last three parts of `a + b + m + t + c` form an infix of it. */
  lemma LastThreeIsInfix(a: string, b: string, m: string, t: string, c: string)
    ensures Contains(a + b + m + t + c, m + t + c)
  {
    assert a + b + m + t + c == (a + b) + (m + t + c);
    SuffixIsInfix(a + b, m + t + c);
  }

  /** The second to fourth parts of `a + b + c + d + e + f` form an infix of it. */
  lemma InnerThreeIsInfix(a: string, b: string, c: string, d: string, e: string, f: string)
    ensures Contains(a + b + c + d + e + f, b + c + d)
  {
    assert a + b + c + d + e + f == a + (b + c + d) + (e + f);
    MiddleIsInfix(a, b + c + d, e + f);
  }

  /** The first two parts of `a + b + c + d + e` form a prefix of it. */
  lemma FirstTwoIsPrefix(a: string, b: string, c: string, d: string, e: string)
    ensures a + b <= a + b + c + d + e
  {
    assert a + b + c + d + e == (a + b) + (c + d + e);
  }

  /** The middle of a concatenation is an infix of it. */
  lemma MiddleIsInfix(a: string, t: string, b: string)
    ensures Contains(a + t + b, t)
  {
    var s := a + t + b;
    assert s[|a|..|a| + |t|] == t;
    assert 0 <= |a| <= |s| && Occurs(s, t, |a|);
  }
}
