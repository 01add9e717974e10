/** The Kotlin string operations the virtual-folder layer relies on, on `string` (a `seq<char>`). */
module Text {

  /** `Char.isWhitespace()` on the JVM: `Character.isWhitespace(c) || Character.isSpaceChar(c)`.
      That is the controls U+0009..U+000D and U+001C..U+001F, and every space, line and
      paragraph separator of Unicode (categories Zs, Zl, Zp). */
  predicate IsWhitespace(c: char)
  {
    || ('\t' <= c <= '\r')
    || ('\U{1C}' <= c <= ' ')
    || c == '\U{A0}' || c == '\U{1680}'
    || ('\U{2000}' <= c <= '\U{200A}')
    || c == '\U{2028}' || c == '\U{2029}' || c == '\U{202F}' || c == '\U{205F}' || c == '\U{3000}'
  }

  /** `isBlank()`: empty, or whitespace only. */
  predicate IsBlank(s: string)
  {
    forall i :: 0 <= i < |s| ==> IsWhitespace(s[i])
  }

  /** Every character of `s` is `c`. */
  predicate AllChars(s: string, c: char)
  {
    forall i :: 0 <= i < |s| ==> s[i] == c
  }

  /** Leading whitespace removed: a suffix of `s`, what is dropped is blank, and what is kept
      does not start with whitespace. */
  function TrimStart(s: string): (r: string)
    ensures |r| <= |s| && r == s[|s| - |r|..]
    ensures IsBlank(s[..|s| - |r|])
    ensures r != [] ==> !IsWhitespace(r[0])
  {
    if s != [] && IsWhitespace(s[0]) then
      var r := TrimStart(s[1..]);
      assert s[..|s| - |r|] == [s[0]] + s[1..][..|s| - 1 - |r|];
      r
    else
      s
  }

  /** Trailing characters satisfying `IsWhitespace` removed: a prefix of `s`, what is dropped
      is blank, and what is kept does not end in whitespace. */
  function TrimEnd(s: string): (r: string)
    ensures |r| <= |s| && r == s[..|r|]
    ensures IsBlank(s[|r|..])
    ensures r != [] ==> !IsWhitespace(r[|r| - 1])
  {
    if s != [] && IsWhitespace(s[|s| - 1]) then
      var r := TrimEnd(s[..|s| - 1]);
      assert s[|r|..] == s[..|s| - 1][|r|..] + [s[|s| - 1]];
      r
    else
      s
  }

  /** `trim()`: whitespace removed from both ends. */
  function Trim(s: string): (r: string)
    ensures |r| <= |s|
    ensures r == [] <==> IsBlank(s)
    ensures r != [] ==> !IsWhitespace(r[0]) && !IsWhitespace(r[|r| - 1])
  {
    var t := TrimStart(s);
    var r := TrimEnd(t);
    assert IsBlank(s) <==> IsBlank(t) by {
      assert s == s[..|s| - |t|] + t;
    }
    assert IsBlank(t) <==> r == [] by {
      if r == [] {
        assert t[|r|..] == t;
      } else {
        assert t[|r| - 1] == r[|r| - 1];
      }
    }
    r
  }

  /** `r` sits in `s` at position `i`, with only whitespace before and after it. */
  predicate BlankAround(s: string, r: string, i: int)
  {
    0 <= i && i + |r| <= |s| && r == s[i..i + |r|] && IsBlank(s[..i]) && IsBlank(s[i + |r|..])
  }

  /** What `trim` keeps is a slice of its input, and what it drops on either side is blank:
      together with the contract of `Trim` this pins the result down. */
  lemma TrimIsSlice(s: string)
    ensures exists i :: BlankAround(s, Trim(s), i)
  {
    var t := TrimStart(s);
    var r := Trim(s);
    var i := |s| - |t|;
    assert r == TrimEnd(t);
    assert IsBlank(s[..i]);
    assert r == s[i..i + |r|] by {
      assert s[i..i + |r|] == t[..|r|];
    }
    assert IsBlank(s[i + |r|..]) by {
      assert s[i + |r|..] == t[|r|..];
    }
    assert BlankAround(s, r, i);
  }

  /** A string that neither starts nor ends in whitespace is its own trim. */
  lemma TrimOfTrimmed(s: string)
    requires s != [] && !IsWhitespace(s[0]) && !IsWhitespace(s[|s| - 1])
    ensures Trim(s) == s
  {
  }

  /** `trimEnd(c)`: every trailing `c` removed. A prefix of `s`, followed in `s` only by `c`s,
      and not itself ending in `c`. */
  function TrimEndChar(s: string, c: char): (r: string)
    ensures |r| <= |s| && r == s[..|r|]
    ensures AllChars(s[|r|..], c)
    ensures r != [] ==> r[|r| - 1] != c
  {
    if s != [] && s[|s| - 1] == c then
      var r := TrimEndChar(s[..|s| - 1], c);
      assert s[|r|..] == s[..|s| - 1][|r|..] + [c];
      r
    else
      s
  }

  /** The three properties of `TrimEndChar` pin its result down: any prefix of `s` followed
      only by `c`s and not ending in `c` is that result. */
  lemma TrimEndCharUnique(s: string, c: char, r: string)
    requires r <= s && AllChars(s[|r|..], c) && (r == [] || r[|r| - 1] != c)
    ensures TrimEndChar(s, c) == r
  {
    var t := TrimEndChar(s, c);
    assert forall k :: |t| <= k < |s| ==> s[k] == c by {
      forall k | |t| <= k < |s|
        ensures s[k] == c
      {
        assert s[|t|..][k - |t|] == s[k];
      }
    }
    assert forall k :: |r| <= k < |s| ==> s[k] == c by {
      forall k | |r| <= k < |s|
        ensures s[k] == c
      {
        assert s[|r|..][k - |r|] == s[k];
      }
    }
  }

  /** Only `c`s: nothing is left after `trimEnd(c)`. */
  lemma TrimEndCharOfOnly(s: string, c: char)
    requires AllChars(s, c)
    ensures TrimEndChar(s, c) == []
  {
    TrimEndCharUnique(s, c, []);
  }

  /** Extra trailing `c`s do not change the result of `trimEnd(c)`. */
  lemma TrimEndCharIgnoresTrailing(a: string, tail: string, c: char)
    requires AllChars(tail, c)
    ensures TrimEndChar(a + tail, c) == TrimEndChar(a, c)
  {
    var r := TrimEndChar(a, c);
    assert (a + tail)[..|r|] == r;
    assert (a + tail)[|r|..] == a[|r|..] + tail;
    TrimEndCharUnique(a + tail, c, r);
  }

  /** `endsWith(c)` for a one-character suffix. */
  predicate EndsWith(s: string, c: char)
  {
    s != [] && s[|s| - 1] == c
  }

  /** `indexOf(c)`: the first position of `c`, or -1 when `c` does not occur. */
  function IndexOf(s: string, c: char): (k: int)
    ensures -1 <= k < |s|
    ensures k >= 0 ==> s[k] == c && c !in s[..k]
    ensures k == -1 <==> c !in s
  {
    if s == [] then -1
    else if s[0] == c then 0
    else
      var k := IndexOf(s[1..], c);
      if k == -1 then -1
      else
        assert s[..k + 1] == [s[0]] + s[1..][..k];
        k + 1
  }

  /** `indexOf` finds `c` no later than any position holding `c`. */
  lemma {:induction false} IndexOfAtMost(s: string, c: char, j: int)
    requires 0 <= j < |s| && s[j] == c
    ensures 0 <= IndexOf(s, c) <= j
  {
    if s[0] != c {
      IndexOfAtMost(s[1..], c, j - 1);
    }
  }

  /** `removePrefix(p)`: `s` without `p` in front when it starts with `p`, `s` otherwise. */
  function RemovePrefix(s: string, p: string): (r: string)
    ensures p <= s ==> p + r == s
    ensures !(p <= s) ==> r == s
  {
    if p <= s then s[|p|..] else s
  }
}
