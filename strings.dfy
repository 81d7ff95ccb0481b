/** The few string operations the build tools rely on: Python's `startswith`,
    `endswith`, `in`, `replace`, `split(c)[0]`, and `/`-joined paths. The first three
    work on any sequence, so also on bytes. */
module Strings {
  predicate StartsWith<T(==)>(s: seq<T>, prefix: seq<T>)
  {
    |prefix| <= |s| && s[..|prefix|] == prefix
  }

  predicate EndsWith<T(==)>(s: seq<T>, suffix: seq<T>)
  {
    |suffix| <= |s| && s[|s| - |suffix|..] == suffix
  }

  /** `sub in s`: sub occurs at some position of s. */
  predicate Contains<T(==)>(s: seq<T>, sub: seq<T>)
    decreases |s|
  {
    StartsWith(s, sub) || (s != [] && Contains(s[1..], sub))
  }

  /** sub occurs in s at position i. */
  predicate OccursAt<T(==)>(s: seq<T>, sub: seq<T>, i: int)
  {
    0 <= i && i + |sub| <= |s| && s[i..i + |sub|] == sub
  }

  /** Contains holds exactly when sub occurs at some position of s. */
  lemma {:induction false} ContainsAt<T>(s: seq<T>, sub: seq<T>)
    ensures Contains(s, sub) <==> exists i :: OccursAt(s, sub, i)
    decreases |s|
  {
    if StartsWith(s, sub) {
      assert OccursAt(s, sub, 0);
    } else if s != [] {
      ContainsAt(s[1..], sub);
      if Contains(s[1..], sub) {
        var i :| OccursAt(s[1..], sub, i);
        assert s[1..][i..i + |sub|] == s[i + 1..i + 1 + |sub|];
        assert OccursAt(s, sub, i + 1);
      }
      if exists i :: OccursAt(s, sub, i) {
        var i :| OccursAt(s, sub, i);
        assert i != 0;
        assert s[1..][i - 1..i - 1 + |sub|] == s[i..i + |sub|];
        assert OccursAt(s[1..], sub, i - 1);
      }
    }
  }

  /** `s.replace(pat, repl)`: every occurrence of a non-empty `pat`, left to right and
      without overlaps, is replaced by `repl`. */
  function ReplaceAll(s: string, pat: string, repl: string): string
    requires pat != []
    decreases |s|
  {
    if |s| < |pat| then s
    else if StartsWith(s, pat) then repl + ReplaceAll(s[|pat|..], pat, repl)
    else [s[0]] + ReplaceAll(s[1..], pat, repl)
  }

  /** Nothing to replace leaves the string unchanged. */
  lemma {:induction false} ReplaceAllAbsent(s: string, pat: string, repl: string)
    requires pat != [] && !Contains(s, pat)
    ensures ReplaceAll(s, pat, repl) == s
    decreases |s|
  {
    if |s| >= |pat| {
      ReplaceAllAbsent(s[1..], pat, repl);
      assert [s[0]] + s[1..] == s;
    }
  }

  /** Replacing a leading occurrence when the rest holds none. */
  lemma ReplaceAllPrefix(pat: string, rest: string, repl: string)
    requires pat != [] && !Contains(rest, pat)
    ensures ReplaceAll(pat + rest, pat, repl) == repl + rest
  {
    assert (pat + rest)[..|pat|] == pat && (pat + rest)[|pat|..] == rest;
    ReplaceAllAbsent(rest, pat, repl);
  }

  /** Replacing a trailing occurrence when it is the only one. */
  lemma {:induction false} ReplaceAllSuffix(s: string, pat: string, repl: string)
    requires pat != []
    requires forall i :: 0 <= i < |s| ==> !StartsWith((s + pat)[i..], pat)
    ensures ReplaceAll(s + pat, pat, repl) == s + repl
    decreases |s|
  {
    var t := s + pat;
    if s == [] {
      assert t == pat && t[|pat|..] == [];
      assert repl + [] == repl;
    } else {
      assert !StartsWith(t[0..], pat);
      assert t[0..] == t;
      assert t[1..] == s[1..] + pat;
      forall i | 0 <= i < |s[1..]|
        ensures !StartsWith((s[1..] + pat)[i..], pat)
      {
        assert (s[1..] + pat)[i..] == t[i + 1..];
      }
      ReplaceAllSuffix(s[1..], pat, repl);
      assert [s[0]] + (s[1..] + repl) == s + repl;
    }
  }

  /** A prefix in which no occurrence starts is copied unchanged. */
  lemma {:induction false} ReplaceAllSkip(s: string, rest: string, pat: string, repl: string)
    requires pat != []
    requires forall i :: 0 <= i < |s| ==> !StartsWith((s + rest)[i..], pat)
    ensures ReplaceAll(s + rest, pat, repl) == s + ReplaceAll(rest, pat, repl)
    decreases |s|
  {
    var t := s + rest;
    if s != [] && |t| >= |pat| {
      assert t[0..] == t;
      assert t[1..] == s[1..] + rest;
      forall i | 0 <= i < |s[1..]|
        ensures !StartsWith((s[1..] + rest)[i..], pat)
      {
        assert (s[1..] + rest)[i..] == t[i + 1..];
      }
      ReplaceAllSkip(s[1..], rest, pat, repl);
      assert [s[0]] + (s[1..] + ReplaceAll(rest, pat, repl)) == s + ReplaceAll(rest, pat, repl);
    } else if s != [] {
      ShortUnchanged(t, pat, repl);
      ShortUnchanged(rest, pat, repl);
      assert ReplaceAll(t, pat, repl) == t;
      assert ReplaceAll(rest, pat, repl) == rest;
    } else {
      assert t == rest;
    }
  }

  lemma ShortUnchanged(s: string, pat: string, repl: string)
    requires pat != [] && |s| < |pat|
    ensures ReplaceAll(s, pat, repl) == s
  {
  }

  /** A template holding the pattern once has that one place filled in. */
  lemma ReplaceAllOnce(pre: string, pat: string, post: string, repl: string)
    requires pat != [] && !Contains(post, pat)
    requires forall i :: 0 <= i < |pre| ==> !StartsWith((pre + pat + post)[i..], pat)
    ensures ReplaceAll(pre + pat + post, pat, repl) == pre + repl + post
  {
    assert pre + pat + post == pre + (pat + post);
    ReplaceAllSkip(pre, pat + post, pat, repl);
    ReplaceAllPrefix(pat, post, repl);
  }

  /** `s.split(c)[0]`: everything before the first c, or all of s. */
  function BeforeFirst(s: string, c: char): (r: string)
    ensures |r| <= |s| && r == s[..|r|] && c !in r
    ensures |r| < |s| ==> s[|r|] == c
  {
    if s == [] || s[0] == c then [] else [s[0]] + BeforeFirst(s[1..], c)
  }

  /** `a / b` for pathlib paths, written with "/" and without normalisation. */
  function Join(a: string, b: string): string
  {
    a + "/" + b
  }

  /** `path.name`: the part after the last "/". */
  function Name(path: string): (r: string)
    ensures EndsWith(path, r) && '/' !in r
    decreases |path|
  {
    if path == [] then []
    else if path[|path| - 1] == '/' then []
    else
      var r := Name(path[..|path| - 1]) + [path[|path| - 1]];
      assert path[|path| - |r|..] == path[..|path| - 1][|path| - |r|..] + [path[|path| - 1]];
      r
  }
}
