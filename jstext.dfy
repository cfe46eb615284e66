/** The JavaScript string operations the services rely on: the `\s` class of
    regular expressions, `toLowerCase`, `includes` and `trim`. */
module JsText {

  /** `\s` in a regular expression, which is also the set `String.prototype.trim`
      strips: the WhiteSpace and LineTerminator code points of ECMAScript. */
  predicate IsSpace(c: char) {
    || c == '\t' || c == '\n' || c == '\U{000B}' || c == '\U{000C}' || c == '\r' || c == ' '
    || c == '\U{00A0}' || c == '\U{1680}' || ('\U{2000}' <= c <= '\U{200A}')
    || c == '\U{2028}' || c == '\U{2029}' || c == '\U{202F}' || c == '\U{205F}'
    || c == '\U{3000}' || c == '\U{FEFF}'
  }

  predicate IsAsciiLetter(c: char) {
    'A' <= c <= 'Z' || 'a' <= c <= 'z'
  }

  predicate IsLowerLetter(c: char) {
    'a' <= c <= 'z'
  }

  /** `\d`: the ASCII digits only. */
  predicate IsDigit(c: char) {
    '0' <= c <= '9'
  }

  /** Lower-case form of one character. Only ASCII letters change (see README,
      "Left out", for the two code points where full Unicode lowering differs
      in a way that matters). */
  function Lower(c: char): (d: char)
    ensures IsLowerLetter(d) <==> IsAsciiLetter(c)
    ensures !IsAsciiLetter(c) ==> d == c
    ensures IsSpace(d) <==> IsSpace(c)
  {
    if 'A' <= c <= 'Z' then (c as int + 32) as char else c
  }

  /** `s.toLowerCase()` */
  function ToLowerCase(s: string): string {
    seq(|s|, k requires 0 <= k < |s| => Lower(s[k]))
  }

  /** Lowering twice is lowering once. */
  lemma ToLowerCaseIdempotent(s: string)
    ensures ToLowerCase(ToLowerCase(s)) == ToLowerCase(s)
  {
    var t := ToLowerCase(s);
    forall k | 0 <= k < |s|
      ensures Lower(t[k]) == t[k]
    {
      assert IsAsciiLetter(s[k]) ==> 'a' <= t[k] <= 'z';
    }
  }

  /** `s.includes(sub)`: `sub` occurs in `s` at some position (the empty string
      occurs everywhere). */
  predicate Includes(s: string, sub: string) {
    exists k :: 0 <= k <= |s| && sub <= s[k..]
  }

  /** `s` is `r` surrounded by white space only, with `r` starting at `lo`. */
  ghost predicate TrimmedAt(s: string, lo: int, r: string) {
    && 0 <= lo <= |s|
    && r <= s[lo..]
    && (forall k :: 0 <= k < lo ==> IsSpace(s[k]))
    && (forall k :: lo + |r| <= k < |s| ==> IsSpace(s[k]))
  }

  /** Leading white space removed: `s.trimStart()`. */
  function TrimStart(s: string): (r: string)
    ensures TrimmedAt(s, |s| - |r|, r)
    ensures r == [] || !IsSpace(r[0])
    decreases |s|
  {
    if |s| > 0 && IsSpace(s[0]) then TrimStart(s[1..]) else s
  }

  /** Trailing white space removed: `s.trimEnd()`. */
  function TrimEnd(s: string): (r: string)
    ensures TrimmedAt(s, 0, r)
    ensures r == [] || !IsSpace(r[|r| - 1])
    decreases |s|
  {
    if |s| > 0 && IsSpace(s[|s| - 1]) then TrimEnd(s[..|s| - 1]) else s
  }

  /** `s.trim()`: `s` without its leading and trailing white space. The result
      is a piece of `s`, everything around it is white space, and it neither
      starts nor ends with white space. */
  function Trim(s: string): (r: string)
    ensures exists lo :: TrimmedAt(s, lo, r)
    ensures r == [] || (!IsSpace(r[0]) && !IsSpace(r[|r| - 1]))
  {
    var tail := TrimStart(s);
    var r := TrimEnd(tail);
    TrimmedCompose(s, |s| - |tail|, tail, r);
    TrimEndKeepsStart(tail, r);
    r
  }

  /** Trimming the end keeps the first character. */
  lemma TrimEndKeepsStart(tail: string, r: string)
    requires r == TrimEnd(tail)
    ensures r != [] ==> tail != [] && r[0] == tail[0]
  {
    assert r <= tail[0..];
  }

  /** A string that neither starts nor ends with white space is its own trim. */
  lemma TrimOfUnspaced(s: string)
    requires s != [] && !IsSpace(s[0]) && !IsSpace(s[|s| - 1])
    ensures Trim(s) == s
  {
    assert TrimStart(s) == s;
  }

  lemma TrimmedCompose(s: string, lo: int, tail: string, r: string)
    requires TrimmedAt(s, lo, tail) && |tail| == |s| - lo
    requires TrimmedAt(tail, 0, r)
    ensures TrimmedAt(s, lo, r)
  {
    assert tail == s[lo..];
    forall k | lo + |r| <= k < |s|
      ensures IsSpace(s[k])
    {
      assert s[k] == tail[k - lo];
    }
  }
}
