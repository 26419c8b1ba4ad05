/** Character-level string operations used by the cell cleaner:
    Python's `str.strip()` and pandas' literal `str.replace(c, '')`. */
module Text {

  /** Python's `str.isspace` on a single character: the characters that
      `str.strip()` with no argument removes. */
  predicate IsSpace(c: char) {
    || ('\t' <= c <= '\r')              // \t \n \v \f \r
    || ('\U{1C}' <= c <= ' ')           // file/group/record/unit separators, space
    || c == '\U{85}' || c == '\U{A0}' || c == '\U{1680}'
    || ('\U{2000}' <= c <= '\U{200A}')
    || c == '\U{2028}' || c == '\U{2029}' || c == '\U{202F}'
    || c == '\U{205F}' || c == '\U{3000}'
  }

  predicate AllSpace(s: string) {
    forall i :: 0 <= i < |s| ==> IsSpace(s[i])
  }

  /** Neither end of `s` is whitespace (vacuously true of the empty string). */
  predicate Trimmed(s: string) {
    |s| == 0 || (!IsSpace(s[0]) && !IsSpace(s[|s| - 1]))
  }

  /** Drops leading whitespace: the result is a suffix of `s`, everything cut is whitespace. */
  function TrimStart(s: string): (r: string)
    ensures |r| <= |s| && r == s[|s| - |r|..]
    ensures AllSpace(s[..|s| - |r|])
    ensures |r| > 0 ==> !IsSpace(r[0])
  {
    if |s| > 0 && IsSpace(s[0]) then TrimStart(s[1..]) else s
  }

  /** Drops trailing whitespace: the result is a prefix of `s`, everything cut is whitespace. */
  function TrimEnd(s: string): (r: string)
    ensures |r| <= |s| && r == s[..|r|]
    ensures AllSpace(s[|r|..])
    ensures |r| > 0 ==> !IsSpace(r[|r| - 1])
  {
    if |s| > 0 && IsSpace(s[|s| - 1]) then TrimEnd(s[..|s| - 1]) else s
  }

  /** Python's `str.strip()`. */
  function Strip(s: string): (r: string)
    ensures Trimmed(r) && |r| <= |s|
  {
    TrimEnd(TrimStart(s))
  }

  lemma {:induction false} TrimStartOfSpacePrefix(pre: string, t: string)
    requires AllSpace(pre)
    requires |t| == 0 || !IsSpace(t[0])
    ensures TrimStart(pre + t) == t
    decreases |pre|
  {
    if |pre| > 0 {
      assert (pre + t)[1..] == pre[1..] + t;
      TrimStartOfSpacePrefix(pre[1..], t);
    } else {
      assert pre + t == t;
    }
  }

  lemma {:induction false} TrimEndOfSpaceSuffix(t: string, post: string)
    requires AllSpace(post)
    requires |t| == 0 || !IsSpace(t[|t| - 1])
    ensures TrimEnd(t + post) == t
    decreases |post|
  {
    if |post| > 0 {
      assert (t + post)[..|t + post| - 1] == t + post[..|post| - 1];
      TrimEndOfSpaceSuffix(t, post[..|post| - 1]);
    } else {
      assert t + post == t;
    }
  }

  /** `Strip` returns the core of `s`: however `s` is cut into whitespace, a core with no
      whitespace at either end, and whitespace, stripping returns that core. */
  lemma StripExact(pre: string, core: string, post: string)
    requires AllSpace(pre) && AllSpace(post) && Trimmed(core)
    ensures Strip(pre + core + post) == core
  {
    if |core| > 0 {
      assert pre + core + post == pre + (core + post);
      TrimStartOfSpacePrefix(pre, core + post);
      TrimEndOfSpaceSuffix(core, post);
    } else {
      assert pre + core + post == pre + post;
      assert AllSpace(pre + post);
      TrimStartOfSpacePrefix(pre + post, "");
      assert pre + post + "" == pre + post;
    }
  }

  /** Literal (non-regex) removal of every occurrence of `c`, as pandas' string replace
      with an empty replacement does it. */
  function Delete(s: string, c: char): (r: string)
    ensures c !in r && |r| <= |s|
  {
    if |s| == 0 then []
    else (if s[0] == c then [] else [s[0]]) + Delete(s[1..], c)
  }

  /** Deleting keeps every other character: only the occurrences of `c` are gone. */
  lemma {:induction false} DeleteContents(s: string, c: char)
    ensures multiset(Delete(s, c)) == multiset(s)[c := 0]
    decreases |s|
  {
    if |s| > 0 {
      assert s == [s[0]] + s[1..];
      DeleteContents(s[1..], c);
    }
  }

  lemma {:induction false} DeleteAbsent(s: string, c: char)
    requires c !in s
    ensures Delete(s, c) == s
    decreases |s|
  {
    if |s| > 0 {
      assert s == [s[0]] + s[1..];
      DeleteAbsent(s[1..], c);
    }
  }

  lemma {:induction false} DeleteAppend(a: string, b: string, c: char)
    ensures Delete(a + b, c) == Delete(a, c) + Delete(b, c)
    decreases |a|
  {
    if |a| == 0 {
      assert a + b == b;
    } else {
      assert (a + b)[0] == a[0];
      assert (a + b)[1..] == a[1..] + b;
      DeleteAppend(a[1..], b, c);
    }
  }
}
