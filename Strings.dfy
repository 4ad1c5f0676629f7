/** The Python string and dictionary built-ins that the calendar update
    script relies on: `str.strip()`, `str.replace(c, "")`, the substring
    test `t in s`, `str.upper()` and `dict.get(key, default)`. */
module Strings {

  /** Python's `str.isspace()`: the characters `str.strip()` removes when
      it is called without an argument. */
  predicate IsSpace(c: char)
  {
    || ('\t' <= c <= '\r')                  // U+0009 .. U+000D
    || ('\U{1C}' <= c <= '\U{1F}')          // file, group, record, unit separators
    || c == ' '
    || c == '\U{85}' || c == '\U{A0}' || c == '\U{1680}'
    || ('\U{2000}' <= c <= '\U{200A}')
    || c == '\U{2028}' || c == '\U{2029}' || c == '\U{202F}'
    || c == '\U{205F}' || c == '\U{3000}'
  }

  /** Every character of `s` at a position in `lo..hi` is whitespace. */
  ghost predicate SpaceBetween(s: string, lo: int, hi: int)
  {
    forall k :: lo <= k < hi && 0 <= k < |s| ==> IsSpace(s[k])
  }

  /** The first position at or after `lo` that does not hold whitespace
      (or `|s|`). */
  function FirstNonSpace(s: string, lo: nat): (b: nat)
    requires lo <= |s|
    ensures lo <= b <= |s|
    ensures SpaceBetween(s, lo, b)
    ensures b < |s| ==> !IsSpace(s[b])
    decreases |s| - lo
  {
    if lo < |s| && IsSpace(s[lo]) then FirstNonSpace(s, lo + 1) else lo
  }

  /** The end of the last stretch of `s[lo..hi]` that does not hold
      whitespace (or `lo`). */
  function LastNonSpace(s: string, lo: nat, hi: nat): (e: nat)
    requires lo <= hi <= |s|
    ensures lo <= e <= hi
    ensures SpaceBetween(s, e, hi)
    ensures e > lo ==> !IsSpace(s[e - 1])
  {
    if hi > lo && IsSpace(s[hi - 1]) then LastNonSpace(s, lo, hi - 1) else hi
  }

  /** `s.strip()`: the slice of `s` left once the whitespace at both ends
      is removed. What is removed is whitespace, and what is kept neither
      starts nor ends with whitespace. */
  function Strip(s: string): (r: string)
    ensures |r| <= |s|
    ensures exists i :: 0 <= i <= |s| - |r| && r == s[i..i + |r|]
                        && SpaceBetween(s, 0, i) && SpaceBetween(s, i + |r|, |s|)
    ensures r != [] ==> !IsSpace(r[0]) && !IsSpace(r[|r| - 1])
  {
    var i := FirstNonSpace(s, 0);
    var e := LastNonSpace(s, i, |s|);
    var r := s[i..e];
    assert r == s[i..i + |r|];
    r
  }

  /** A string that neither starts nor ends with whitespace is its own
      strip; in particular `Strip` is idempotent. */
  lemma StripKeepsTrimmed(s: string)
    requires s == [] || (!IsSpace(s[0]) && !IsSpace(s[|s| - 1]))
    ensures Strip(s) == s
  {
    var r := Strip(s);
    var i :| 0 <= i <= |s| - |r| && r == s[i..i + |r|]
             && SpaceBetween(s, 0, i) && SpaceBetween(s, i + |r|, |s|);
    if s != [] {
      assert !IsSpace(s[0]) && !IsSpace(s[|s| - 1]);
    }
  }

  lemma StripIdempotent(s: string)
    ensures Strip(Strip(s)) == Strip(s)
  {
    StripKeepsTrimmed(Strip(s));
  }

  /** `s.replace(c, "")` for a single character `c`. */
  function RemoveChar(s: string, c: char): (r: string)
    ensures c !in r
    ensures |r| <= |s|
    ensures c !in s ==> r == s
  {
    if s == [] then []
    else
      var rest := RemoveChar(s[..|s| - 1], c);
      assert s == s[..|s| - 1] + [s[|s| - 1]];
      if s[|s| - 1] == c then rest else rest + [s[|s| - 1]]
  }

  /** `replace(c, "")` shortens the string by the number of occurrences
      of `c`. */
  lemma RemoveCharLength(s: string, c: char)
    ensures |RemoveChar(s, c)| == |s| - multiset(s)[c]
  {
    RemoveCharMultiset(s, c);
    assert |multiset(RemoveChar(s, c))| == |RemoveChar(s, c)|;
    assert |multiset(s)| == |multiset(s)[c := 0]| + multiset(s)[c];
  }

  /** Exactly the occurrences of `c` are removed: every other character
      keeps its number of occurrences. */
  lemma {:induction false} RemoveCharMultiset(s: string, c: char)
    ensures multiset(RemoveChar(s, c)) == multiset(s)[c := 0]
  {
    if s != [] {
      var s' := s[..|s| - 1];
      RemoveCharMultiset(s', c);
      assert s == s' + [s[|s| - 1]];
    }
  }

  /** Removing a character works piecewise, so the characters that stay
      keep their relative order. */
  lemma {:induction false} RemoveCharAppend(a: string, b: string, c: char)
    ensures RemoveChar(a + b, c) == RemoveChar(a, c) + RemoveChar(b, c)
    decreases |b|
  {
    if b == [] {
      assert a + b == a;
    } else {
      var b' := b[..|b| - 1];
      assert (a + b)[..|a + b| - 1] == a + b';
      RemoveCharAppend(a, b', c);
    }
  }

  /** `t` occurs in `s` starting at position `i`. */
  ghost predicate OccursAt(s: string, t: string, i: int)
  {
    0 <= i <= |s| - |t| && s[i..i + |t|] == t
  }

  /** The substring test `t in s`, by a scan from the left. */
  function Contains(s: string, t: string): (b: bool)
    ensures b <==> exists i :: OccursAt(s, t, i)
    decreases |s|
  {
    if |s| < |t| then false
    else if s[..|t|] == t then
      assert OccursAt(s, t, 0);
      true
    else
      var b := Contains(s[1..], t);
      assert forall i :: OccursAt(s, t, i) <==> OccursAt(s[1..], t, i - 1) by {
        forall i ensures OccursAt(s, t, i) <==> OccursAt(s[1..], t, i - 1) {
          if 1 <= i <= |s| - |t| {
            var u, v, w := s[1..], s[i..i + |t|], s[1..][i - 1..i - 1 + |t|];
            assert v == w by {
              forall k | 0 <= k < |t| ensures v[k] == w[k] {
                assert u[i - 1 + k] == s[i + k];
              }
            }
          }
        }
      }
      assert b ==> OccursAt(s, t, (var j :| OccursAt(s[1..], t, j); j) + 1);
      b
  }

  /** A string without the first character of `t` does not contain `t`. */
  lemma NotContainsWithoutHead(s: string, t: string)
    requires t != [] && t[0] !in s
    ensures !Contains(s, t)
  {
  }

  /** `c.upper()` for the characters whose upper-case form is a single
      ASCII letter: the 26 lower-case ASCII letters, and U+017F (long s),
      whose upper-case form is `S`. Every other character is returned as
      it is. */
  function UpperChar(c: char): char
  {
    if 'a' <= c <= 'z' then (c as int - 32) as char
    else if c == '\U{17F}' then 'S'
    else c
  }

  /** `s.upper()`, one character at a time. */
  function Upper(s: string): string
  {
    seq(|s|, k requires 0 <= k < |s| => UpperChar(s[k]))
  }

  predicate IsAsciiDigit(c: char)
  {
    '0' <= c <= '9'
  }

  /** `m.get(k, d)`. */
  function GetOr(m: map<string, string>, k: string, d: string): string
  {
    if k in m then m[k] else d
  }

}
