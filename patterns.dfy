/** The regular expressions of the certificate field extractor and the
    `String.prototype.match` search that applies them.

    Each regular expression has one of four shapes (see `Pattern`). For each
    shape there are two descriptions:
    - `MatchAt`, a hand-written matcher that returns the match a backtracking
      engine finds at one start position (greedy quantifiers, alternatives
      tried in order), and `Exec`, which tries start positions left to right;
    - `Matches`, the regular language itself: every way the expression can
      match, with no preference among them.
    `ExecIsLeftmostPreferred` connects the two: `Exec` finds a match exactly
    when one exists, and the one it finds starts leftmost, then has the
    latest capture start, then the latest capture end, among all matches. */
module CertificatePatterns {
  import opened Common
  import opened JsText

  /** The character classes the patterns use. */
  datatype CharClass =
    | Space     // `\s`
    | NameChar  // `[A-Za-z\s-]`
    | CodeChar  // `[A-Z0-9-]` under the `i` flag, so lower-case letters too
    | Digit     // `\d`

  predicate InClass(cls: CharClass, c: char) {
    match cls
    case Space => IsSpace(c)
    case NameChar => IsAsciiLetter(c) || IsSpace(c) || c == '-'
    case CodeChar => IsAsciiLetter(c) || IsDigit(c) || c == '-'
    case Digit => IsDigit(c)
  }

  /** A class holds either every white-space character or none. */
  lemma SpacesAlike(cls: CharClass, c: char, d: char)
    requires InClass(cls, c) && IsSpace(c) && IsSpace(d)
    ensures InClass(cls, d)
  {
  }

  /** Every character of `t[lo..hi]` is in `cls`. */
  predicate AllIn(t: string, lo: int, hi: int, cls: CharClass) {
    0 <= lo <= hi <= |t| && forall k {:trigger InClass(cls, t[k])} :: lo <= k < hi ==> InClass(cls, t[k])
  }

  /** Position `k` of `t` holds a character of `cls`. */
  predicate ClassAt(t: string, k: int, cls: CharClass) {
    0 <= k < |t| && InClass(cls, t[k])
  }

  predicate IsSeparator(c: char) {
    c == '-' || c == '/'
  }

  /** The end of the longest run of `cls` characters that starts at `j`. */
  function RunEnd(t: string, j: nat, cls: CharClass): (e: nat)
    requires j <= |t|
    ensures j <= e <= |t| && AllIn(t, j, e, cls)
    ensures e == |t| || !InClass(cls, t[e])
    decreases |t| - j
  {
    if j < |t| && InClass(cls, t[j]) then RunEnd(t, j + 1, cls) else j
  }

  /** What a greedy `\s*` at `j` consumes: the position after the white space. */
  function SkipSpaces(t: string, j: nat): (e: nat)
    requires j <= |t|
  {
    RunEnd(t, j, Space)
  }

  /** A run of `cls` from `j` to a character outside `cls` ends there. */
  lemma RunEndAt(t: string, j: nat, e: int, cls: CharClass)
    requires AllIn(t, j, e, cls) && (e == |t| || !InClass(cls, t[e]))
    ensures RunEnd(t, j, cls) == e
  {
    var r := RunEnd(t, j, cls);
    assert r < e ==> ClassAt(t, r, cls);
    assert e < r ==> ClassAt(t, e, cls);
  }

  // ---------------------------------------------------------------------
  // Words and alternatives, compared case-insensitively as under `i`

  /** The lower-case word `w` occurs at `p`, ignoring the case of ASCII letters. */
  predicate WordAt(t: string, p: int, w: string) {
    0 <= p && p + |w| <= |t| && forall k :: 0 <= k < |w| ==> Lower(t[p + k]) == w[k]
  }

  /** Some alternative of `words` occurs at `p` and ends at `e`. */
  ghost predicate AlternativeAt(t: string, p: int, words: seq<string>, e: int) {
    exists w :: w in words && WordAt(t, p, w) && e == p + |w|
  }

  /** The alternatives of a group such as `(?:hospital|clinic|center)`:
      non-empty words that start with a lower-case letter. */
  predicate Words(words: seq<string>) {
    forall i :: 0 <= i < |words| ==> |words[i]| > 0 && IsLowerLetter(words[i][0])
  }

  /** Alternatives that moreover start with distinct letters, such as
      `(?:vaccine|immunization|shot)`, so that at most one of them occurs at
      any position. */
  predicate Alternatives(words: seq<string>) {
    && Words(words)
    && (forall i, j :: 0 <= i < j < |words| ==> words[i][0] != words[j][0])
  }

  /** The end of the first alternative, in order, that occurs at `p`. */
  function AlternativeEnd(t: string, p: nat, words: seq<string>): (r: Option<nat>)
    ensures r.Some? ==> r.value <= |t| && AlternativeAt(t, p, words, r.value)
    ensures r.None? ==> forall w :: w in words ==> !WordAt(t, p, w)
  {
    if |words| == 0 then None
    else if WordAt(t, p, words[0]) then Some(p + |words[0]|)
    else
      var r := AlternativeEnd(t, p, words[1..]);
      assert forall w :: w in words ==> w == words[0] || w in words[1..];
      r
  }

  /** A word that starts with a lower-case letter cannot start on white space. */
  lemma WordStartsWithLetter(t: string, p: int, w: string)
    requires WordAt(t, p, w) && |w| > 0 && IsLowerLetter(w[0])
    ensures p < |t| && !IsSpace(t[p])
  {
    assert Lower(t[p + 0]) == w[0];
  }

  /** With distinct initials, the alternative found is the only one there. */
  lemma {:induction false} AlternativeEndUnique(t: string, p: nat, words: seq<string>, e: int)
    requires Alternatives(words) && AlternativeAt(t, p, words, e)
    ensures AlternativeEnd(t, p, words) == Some(e)
    decreases |words|
  {
    var w :| w in words && WordAt(t, p, w) && e == p + |w|;
    var i :| 0 <= i < |words| && words[i] == w;
    assert Lower(t[p + 0]) == w[0];
    if WordAt(t, p, words[0]) {
      assert Lower(t[p + 0]) == words[0][0];
      assert i == 0;
    } else {
      assert i > 0 && w in words[1..];
      AlternativeEndUnique(t, p, words[1..], e);
    }
  }

  // ---------------------------------------------------------------------
  // The four shapes

  datatype Pattern =
      /** `(?:labels)\s*(?:number|no\.?)\s*:\s*([cls]+)` when `numbered`,
          `(?:labels)\s*:\s*([cls]+)` otherwise. */
    | Labelled(labels: seq<string>, numbered: bool, cls: CharClass)
      /** `(?:labels)\s*:\s*(\d{1,2}[-/]\d{1,2}[-/]\d{2,4})` */
    | LabelledDate(labels: seq<string>)
      /** `([cls]+)\s*(?:suffixes)` */
    | Suffixed(cls: CharClass, suffixes: seq<string>)
      /** `(\d{1,2}[-/]\d{1,2}[-/]\d{2,4})` */
    | BareDate

  predicate WellFormed(pat: Pattern) {
    match pat
    case Labelled(labels, _, _) => Alternatives(labels)
    case LabelledDate(labels) => Alternatives(labels)
    case Suffixed(_, suffixes) => Words(suffixes)
    case BareDate => true
  }

  /** The bounds `t[lo..hi]` of a capture group. */
  datatype Span = Span(lo: nat, hi: nat)

  // ---------------------------------------------------------------------
  // The regular language: every way a pattern can match at `p`

  /** `number` or `no`, with an optional `.` after `no`, from `s` to `q`. */
  ghost predicate QualifierAt(t: string, s: int, q: int) {
    || (WordAt(t, s, "number") && q == s + 6)
    || (WordAt(t, s, "no") && (q == s + 2 || (q == s + 3 && s + 2 < |t| && t[s + 2] == '.')))
  }

  /** Where the label part of a match starting at `p` can end. */
  ghost predicate LabelPartAt(t: string, p: int, labels: seq<string>, numbered: bool, q: int) {
    if numbered then
      exists e, s :: AlternativeAt(t, p, labels, e) && AllIn(t, e, s, Space) && QualifierAt(t, s, q)
    else
      AlternativeAt(t, p, labels, q)
  }

  /** A `:` at `i` that can follow the label part of a match starting at `p`. */
  ghost predicate ColonAt(t: string, p: int, labels: seq<string>, numbered: bool, i: int) {
    && 0 <= i < |t| && t[i] == ':'
    && exists q :: LabelPartAt(t, p, labels, numbered, q) && AllIn(t, q, i, Space)
  }

  /** `t[a..b]` has the shape `\d{1,2}[-/]\d{1,2}[-/]\d{2,4}`. */
  predicate IsDateToken(t: string, a: int, b: int) {
    || DateShape(t, a, b, 1, 1) || DateShape(t, a, b, 1, 2)
    || DateShape(t, a, b, 2, 1) || DateShape(t, a, b, 2, 2)
  }

  /** `IsDateToken` with a day/month part of `d1` digits and one of `d2` digits. */
  predicate DateShape(t: string, a: int, b: int, d1: int, d2: int) {
    var s1 := a + d1;
    var s2 := s1 + 1 + d2;
    && 0 <= a && 0 <= d1 && 0 <= d2 && s2 + 3 <= b <= s2 + 5 && b <= |t|
    && AllIn(t, a, s1, Digit) && IsSeparator(t[s1])
    && AllIn(t, s1 + 1, s2, Digit) && IsSeparator(t[s2])
    && AllIn(t, s2 + 1, b, Digit)
  }

  /** `pat` can match starting at `p` with its capture group at `t[a..b]`. */
  ghost predicate Matches(pat: Pattern, t: string, p: int, a: int, b: int) {
    && 0 <= p <= a < b <= |t|
    && match pat
       case Labelled(labels, numbered, cls) =>
         && (exists i :: ColonAt(t, p, labels, numbered, i) && i < a && AllIn(t, i + 1, a, Space))
         && AllIn(t, a, b, cls)
       case LabelledDate(labels) =>
         && (exists i :: ColonAt(t, p, labels, false, i) && i < a && AllIn(t, i + 1, a, Space))
         && IsDateToken(t, a, b)
       case Suffixed(cls, suffixes) =>
         && a == p && AllIn(t, a, b, cls)
         && exists w, e :: AllIn(t, b, w, Space) && AlternativeAt(t, w, suffixes, e)
       case BareDate =>
         a == p && IsDateToken(t, a, b)
  }

  // ---------------------------------------------------------------------
  // The backtracking matcher

  /** `number|no\.?` at `s`: `number` is tried first; the optional `.` is
      greedy, and giving it back never helps because `\s*:` cannot start with `.`. */
  function QualifierEnd(t: string, s: nat): (r: Option<nat>)
    ensures r.Some? ==> r.value <= |t| && QualifierAt(t, s, r.value)
    ensures r.None? <==> !WordAt(t, s, "number") && !WordAt(t, s, "no")
    ensures WordAt(t, s, "no") && s + 2 < |t| && t[s + 2] == '.' ==> r == Some(s + 3)
  {
    // The second letter tells "number" and "no" apart.
    assert "number"[1] == 'u' && "no"[1] == 'o';
    assert WordAt(t, s, "number") ==> Lower(t[s + 1]) == "number"[1];
    assert WordAt(t, s, "no") ==> Lower(t[s + 1]) == "no"[1];
    if WordAt(t, s, "number") then Some(s + 6)
    else if WordAt(t, s, "no") then
      if s + 2 < |t| && t[s + 2] == '.' then Some(s + 3) else Some(s + 2)
    else None
  }

  /** The position of the `:` after the label part of a match starting at `p`.
      Every `\s*` before the `:` is followed by a letter or by `:`, so only the
      greedy choice can succeed, and alternatives with distinct initials leave
      no other choice. */
  function ColonAfterLabel(t: string, p: nat, labels: seq<string>, numbered: bool): (r: Option<nat>)
    ensures r.Some? ==> r.value < |t|
  {
    match AlternativeEnd(t, p, labels)
    case None => None
    case Some(e) =>
      var q := if numbered then QualifierEnd(t, SkipSpaces(t, e)) else Some(e);
      if q.None? then None
      else
        var i := SkipSpaces(t, q.value);
        if i < |t| && t[i] == ':' then Some(i) else None
  }

  /** `\s*([cls]+)` from `s` to the end of the expression. The greedy `\s*`
      takes all white space; if no class character follows, it gives back one
      white-space character, which a class that holds white space captures alone. */
  function CaptureRun(t: string, s: nat, cls: CharClass): (r: Option<Span>)
    requires s <= |t|
  {
    var j := SkipSpaces(t, s);
    if j < |t| && InClass(cls, t[j]) then Some(Span(j, RunEnd(t, j, cls)))
    else if s < j && InClass(cls, t[j - 1]) then Some(Span(j - 1, j))
    else None
  }

  /** `\d{1,2}[-/]\d{1,2}[-/]\d{2,4}` at `p`: the end of the token, if one starts there. */
  function DateTokenEnd(t: string, p: nat): (r: Option<nat>)
    requires p <= |t|
    ensures r.Some? ==> p < r.value <= |t| && IsDateToken(t, p, r.value)
  {
    var s1 := RunEnd(t, p, Digit);
    if s1 - p < 1 || s1 - p > 2 || s1 >= |t| || !IsSeparator(t[s1]) then None
    else
      var s2 := RunEnd(t, s1 + 1, Digit);
      if s2 - (s1 + 1) < 1 || s2 - (s1 + 1) > 2 || s2 >= |t| || !IsSeparator(t[s2]) then None
      else
        var e := RunEnd(t, s2 + 1, Digit);
        if e - (s2 + 1) < 2 then None
        else
          var b := if e - (s2 + 1) > 4 then s2 + 5 else e;
          assert DateShape(t, p, b, s1 - p, s2 - (s1 + 1));
          Some(b)
  }

  /** `t[b..]` is white space followed by one of `suffixes`. */
  predicate SuffixAfter(t: string, b: nat, suffixes: seq<string>)
    requires b <= |t|
  {
    AlternativeEnd(t, SkipSpaces(t, b), suffixes).Some?
  }

  /** The greedy `+` of `([cls]+)\s*(?:suffixes)` backtracks from the end of
      the run: the largest capture end in `(p, q]` that a suffix follows. */
  function LastSuffixSplit(t: string, p: nat, q: nat, suffixes: seq<string>): (r: Option<nat>)
    requires p <= q <= |t|
    ensures r.Some? ==> p < r.value <= q && SuffixAfter(t, r.value, suffixes)
    ensures r.Some? ==> forall b :: r.value < b <= q ==> !SuffixAfter(t, b, suffixes)
    ensures r.None? ==> forall b :: p < b <= q ==> !SuffixAfter(t, b, suffixes)
    decreases q
  {
    if q <= p then None
    else if SuffixAfter(t, q, suffixes) then Some(q)
    else LastSuffixSplit(t, p, q - 1, suffixes)
  }

  /** The match a backtracking engine finds for `pat` at start position `p`. */
  function MatchAt(pat: Pattern, t: string, p: nat): (r: Option<Span>)
    requires p <= |t|
  {
    match pat
    case Labelled(labels, numbered, cls) => LabelledMatch(t, p, labels, numbered, cls)
    case LabelledDate(labels) => LabelledDateMatch(t, p, labels)
    case Suffixed(cls, suffixes) => SuffixedMatch(t, p, cls, suffixes)
    case BareDate => BareDateMatch(t, p)
  }

  /** `labels (qualifier)?\s*:\s*([cls]+)` at `p`. */
  function LabelledMatch(t: string, p: nat, labels: seq<string>, numbered: bool, cls: CharClass): (r: Option<Span>)
    requires p <= |t|
  {
    match ColonAfterLabel(t, p, labels, numbered)
    case None => None
    case Some(i) => CaptureRun(t, i + 1, cls)
  }

  /** `labels\s*:\s*(date token)` at `p`. */
  function LabelledDateMatch(t: string, p: nat, labels: seq<string>): (r: Option<Span>)
    requires p <= |t|
  {
    match ColonAfterLabel(t, p, labels, false)
    case None => None
    case Some(i) =>
      var j := SkipSpaces(t, i + 1);
      (match DateTokenEnd(t, j)
       case None => None
       case Some(b) => Some(Span(j, b)))
  }

  /** `([cls]+)\s*(?:suffixes)` at `p`. */
  function SuffixedMatch(t: string, p: nat, cls: CharClass, suffixes: seq<string>): (r: Option<Span>)
    requires p <= |t|
  {
    if p < |t| && InClass(cls, t[p]) then
      (match LastSuffixSplit(t, p, RunEnd(t, p, cls), suffixes)
       case None => None
       case Some(b) => Some(Span(p, b)))
    else None
  }

  /** `(date token)` at `p`. */
  function BareDateMatch(t: string, p: nat): (r: Option<Span>)
    requires p <= |t|
  {
    match DateTokenEnd(t, p)
    case None => None
    case Some(b) => Some(Span(p, b))
  }

  /** A match found by `Exec`: where it starts and where its capture group lies. */
  datatype Found = Found(start: nat, lo: nat, hi: nat)

  /** The first position from `p` to `n`, in order, at which `m` finds a match. */
  function Leftmost(m: nat -> Option<Span>, n: nat, p: nat): (r: Option<Found>)
    requires p <= n
    ensures r.Some? ==> p <= r.value.start <= n && m(r.value.start) == Some(Span(r.value.lo, r.value.hi))
    decreases n - p
  {
    match m(p)
    case Some(s) => Some(Found(p, s.lo, s.hi))
    case None => if p == n then None else Leftmost(m, n, p + 1)
  }

  /** No position before the one `Leftmost` returns matches, and when it
      returns nothing, no position from `p` to `n` matches. */
  lemma {:induction false} LeftmostIsFirst(m: nat -> Option<Span>, n: nat, p: nat)
    requires p <= n
    ensures var r := Leftmost(m, n, p);
      && (r.Some? ==> forall x :: p <= x < r.value.start ==> m(x).None?)
      && (r.None? ==> forall x :: p <= x <= n ==> m(x).None?)
    decreases n - p
  {
    if m(p).None? && p < n {
      LeftmostIsFirst(m, n, p + 1);
    }
  }

  /** The matcher of `pat` on `t` as a function of the start position. */
  function StartsIn(pat: Pattern, t: string): nat -> Option<Span> {
    (x: nat) => if x <= |t| then MatchAt(pat, t, x) else None
  }

  /** `t.match(pat)` without the `g` flag: the match at the leftmost start
      position that has one. */
  function Exec(pat: Pattern, t: string): (r: Option<Found>)
    ensures r.Some? ==> r.value.start <= |t| && MatchAt(pat, t, r.value.start) == Some(Span(r.value.lo, r.value.hi))
  {
    Leftmost(StartsIn(pat, t), |t|, 0)
  }

  /** `t.match(pat)?.[1]`: the text of the first match's capture group. */
  function Capture(pat: Pattern, t: string): (r: Option<string>)
    ensures r.Some? ==> r.value != []
  {
    match Exec(pat, t)
    case None => None
    case Some(f) => MatchAtNonEmpty(pat, t, f.start); Some(t[f.lo..f.hi])
  }

  // ---------------------------------------------------------------------
  // The matcher against the language

  lemma ColonSound(t: string, p: nat, labels: seq<string>, numbered: bool)
    requires ColonAfterLabel(t, p, labels, numbered).Some?
    ensures ColonAt(t, p, labels, numbered, ColonAfterLabel(t, p, labels, numbered).value)
  {
    var e := AlternativeEnd(t, p, labels).value;
    var q := if numbered then QualifierEnd(t, SkipSpaces(t, e)).value else e;
    assert LabelPartAt(t, p, labels, numbered, q) by {
      if numbered {
        var s := SkipSpaces(t, e);
        assert AlternativeAt(t, p, labels, e) && AllIn(t, e, s, Space) && QualifierAt(t, s, q);
      }
    }
    assert AllIn(t, q, SkipSpaces(t, q), Space);
  }

  /** The qualifier `number|no\.?` that a `:` follows is the one `QualifierEnd` takes. */
  lemma QualifierComplete(t: string, e: nat, s: int, q: int, i: int)
    requires AllIn(t, e, s, Space) && QualifierAt(t, s, q)
    requires AllIn(t, q, i, Space) && i < |t| && t[i] == ':'
    ensures SkipSpaces(t, e) == s && QualifierEnd(t, s) == Some(q)
  {
    if WordAt(t, s, "number") {
      WordStartsWithLetter(t, s, "number");
      assert Lower(t[s + 1]) == "number"[1] == 'u';
      assert "no"[1] == 'o';
    } else {
      WordStartsWithLetter(t, s, "no");
      assert q == s + 2 && s + 2 < i ==> ClassAt(t, s + 2, Space);
    }
    RunEndAt(t, e, s, Space);
  }

  lemma ColonComplete(t: string, p: nat, labels: seq<string>, numbered: bool, i: int)
    requires Alternatives(labels) && ColonAt(t, p, labels, numbered, i)
    ensures ColonAfterLabel(t, p, labels, numbered) == Some(i)
  {
    var q :| LabelPartAt(t, p, labels, numbered, q) && AllIn(t, q, i, Space);
    if numbered {
      var e, s :| AlternativeAt(t, p, labels, e) && AllIn(t, e, s, Space) && QualifierAt(t, s, q);
      AlternativeEndUnique(t, p, labels, e);
      QualifierComplete(t, e, s, q, i);
    } else {
      AlternativeEndUnique(t, p, labels, q);
    }
    RunEndAt(t, q, i, Space);
  }

  lemma CaptureRunSound(t: string, s: nat, cls: CharClass)
    requires s <= |t| && CaptureRun(t, s, cls).Some?
    ensures var c := CaptureRun(t, s, cls).value;
      s <= c.lo < c.hi <= |t| && AllIn(t, s, c.lo, Space) && AllIn(t, c.lo, c.hi, cls)
  {
    var j := SkipSpaces(t, s);
    assert AllIn(t, s, j, Space);
  }

  /** Any capture `t[a..b]` that `\s*([cls]+)` allows from `s` is no better
      than the one `CaptureRun` picks. */
  lemma CaptureRunBest(t: string, s: nat, cls: CharClass, a: int, b: int)
    requires s <= a < b <= |t| && AllIn(t, s, a, Space) && AllIn(t, a, b, cls)
    ensures CaptureRun(t, s, cls).Some?
    ensures var c := CaptureRun(t, s, cls).value; a < c.lo || (a == c.lo && b <= c.hi)
  {
    var j := SkipSpaces(t, s);
    assert j < a ==> ClassAt(t, j, Space);
    if j < |t| && InClass(cls, t[j]) {
      var e := RunEnd(t, j, cls);
      assert a == j && e < b ==> ClassAt(t, e, cls);
    } else {
      assert a == j ==> ClassAt(t, a, cls);
      assert ClassAt(t, a, Space) && ClassAt(t, j - 1, Space);
      SpacesAlike(cls, t[a], t[j - 1]);
      assert a == j - 1 && j < b ==> ClassAt(t, j, cls);
    }
  }

  /** Any date token that starts at `p` ends no later than the one `DateTokenEnd` finds. */
  lemma DateTokenEndBest(t: string, p: nat, b: int)
    requires IsDateToken(t, p, b)
    ensures DateTokenEnd(t, p).Some? && b <= DateTokenEnd(t, p).value
  {
    if DateShape(t, p, b, 1, 1) {
      DateShapeBest(t, p, b, 1, 1);
    } else if DateShape(t, p, b, 1, 2) {
      DateShapeBest(t, p, b, 1, 2);
    } else if DateShape(t, p, b, 2, 1) {
      DateShapeBest(t, p, b, 2, 1);
    } else {
      DateShapeBest(t, p, b, 2, 2);
    }
  }

  lemma DateShapeBest(t: string, p: nat, b: int, d1: int, d2: int)
    requires 1 <= d1 <= 2 && 1 <= d2 <= 2 && DateShape(t, p, b, d1, d2)
    ensures DateTokenEnd(t, p).Some? && b <= DateTokenEnd(t, p).value
  {
    var s1 := p + d1;
    var s2 := s1 + 1 + d2;
    assert AllIn(t, p, s1, Digit) && IsSeparator(t[s1]);
    assert AllIn(t, s1 + 1, s2, Digit) && IsSeparator(t[s2]);
    assert AllIn(t, s2 + 1, b, Digit);
    RunEndAt(t, p, s1, Digit);
    RunEndAt(t, s1 + 1, s2, Digit);
    var e := RunEnd(t, s2 + 1, Digit);
    assert e < b ==> ClassAt(t, e, Digit);
  }

  /** A date token starts with a digit. */
  lemma DateTokenStartsWithDigit(t: string, a: int, b: int)
    requires IsDateToken(t, a, b)
    ensures 0 <= a < |t| && IsDigit(t[a])
  {
    assert ClassAt(t, a, Digit);
  }

  lemma MatchAtSound(pat: Pattern, t: string, p: nat)
    requires p <= |t| && MatchAt(pat, t, p).Some?
    ensures Matches(pat, t, p, MatchAt(pat, t, p).value.lo, MatchAt(pat, t, p).value.hi)
  {
    match pat
    case Labelled(labels, numbered, cls) => LabelledSound(labels, numbered, cls, t, p);
    case LabelledDate(labels) => LabelledDateSound(labels, t, p);
    case Suffixed(cls, suffixes) => SuffixedSound(cls, suffixes, t, p);
    case BareDate =>
  }

  lemma LabelledSound(labels: seq<string>, numbered: bool, cls: CharClass, t: string, p: nat)
    requires p <= |t| && MatchAt(Labelled(labels, numbered, cls), t, p).Some?
    ensures var c := MatchAt(Labelled(labels, numbered, cls), t, p).value;
      Matches(Labelled(labels, numbered, cls), t, p, c.lo, c.hi)
  {
    var i := ColonAfterLabel(t, p, labels, numbered).value;
    LabelledAt(labels, numbered, cls, t, p, i);
    var c := CaptureRun(t, i + 1, cls).value;
    ColonSound(t, p, labels, numbered);
    CaptureRunSound(t, i + 1, cls);
    assert ColonAt(t, p, labels, numbered, i) && i < c.lo && AllIn(t, i + 1, c.lo, Space);
  }

  lemma LabelledDateSound(labels: seq<string>, t: string, p: nat)
    requires p <= |t| && MatchAt(LabelledDate(labels), t, p).Some?
    ensures var c := MatchAt(LabelledDate(labels), t, p).value;
      Matches(LabelledDate(labels), t, p, c.lo, c.hi)
  {
    var c := MatchAt(LabelledDate(labels), t, p).value;
    var i := ColonAfterLabel(t, p, labels, false).value;
    ColonSound(t, p, labels, false);
    assert AllIn(t, i + 1, SkipSpaces(t, i + 1), Space);
    assert ColonAt(t, p, labels, false, i) && i < c.lo && AllIn(t, i + 1, c.lo, Space);
  }

  lemma SuffixedSound(cls: CharClass, suffixes: seq<string>, t: string, p: nat)
    requires p <= |t| && MatchAt(Suffixed(cls, suffixes), t, p).Some?
    ensures var c := MatchAt(Suffixed(cls, suffixes), t, p).value;
      Matches(Suffixed(cls, suffixes), t, p, c.lo, c.hi)
  {
    var c := MatchAt(Suffixed(cls, suffixes), t, p).value;
    var e := RunEnd(t, p, cls);
    var w := SkipSpaces(t, c.hi);
    assert AllIn(t, p, c.hi, cls) by {
      assert AllIn(t, p, e, cls);
    }
    assert AllIn(t, c.hi, w, Space);
    assert AlternativeAt(t, w, suffixes, AlternativeEnd(t, w, suffixes).value);
  }

  lemma MatchAtNonEmpty(pat: Pattern, t: string, p: nat)
    requires p <= |t| && MatchAt(pat, t, p).Some?
    ensures MatchAt(pat, t, p).value.lo < MatchAt(pat, t, p).value.hi <= |t|
  {
    MatchAtSound(pat, t, p);
  }

  /** Whenever `pat` can match at `p`, `MatchAt` finds a match there, and the
      one it finds is the one backtracking prefers: the latest capture start,
      then the latest capture end. */
  lemma MatchAtBest(pat: Pattern, t: string, p: nat, a: int, b: int)
    requires WellFormed(pat) && Matches(pat, t, p, a, b)
    ensures MatchAt(pat, t, p).Some?
    ensures var c := MatchAt(pat, t, p).value; a < c.lo || (a == c.lo && b <= c.hi)
  {
    match pat
    case Labelled(labels, numbered, cls) => LabelledBest(labels, numbered, cls, t, p, a, b);
    case LabelledDate(labels) => LabelledDateBest(labels, t, p, a, b);
    case Suffixed(cls, suffixes) => SuffixedBest(cls, suffixes, t, p, a, b);
    case BareDate => DateTokenEndBest(t, p, b);
  }

  lemma LabelledBest(labels: seq<string>, numbered: bool, cls: CharClass, t: string, p: nat, a: int, b: int)
    requires Alternatives(labels) && Matches(Labelled(labels, numbered, cls), t, p, a, b)
    ensures MatchAt(Labelled(labels, numbered, cls), t, p).Some?
    ensures var c := MatchAt(Labelled(labels, numbered, cls), t, p).value; a < c.lo || (a == c.lo && b <= c.hi)
  {
    var i :| ColonAt(t, p, labels, numbered, i) && i < a && AllIn(t, i + 1, a, Space);
    LabelledFrom(labels, numbered, cls, t, p, i);
    CaptureRunBest(t, i + 1, cls, a, b);
  }

  /** Once the label and colon are found to end at `i`, the labelled pattern
      is the capture of the run after it. */
  lemma LabelledFrom(labels: seq<string>, numbered: bool, cls: CharClass, t: string, p: nat, i: int)
    requires Alternatives(labels) && ColonAt(t, p, labels, numbered, i)
    ensures 0 <= i < |t| && MatchAt(Labelled(labels, numbered, cls), t, p) == CaptureRun(t, i + 1, cls)
  {
    ColonComplete(t, p, labels, numbered, i);
    LabelledAt(labels, numbered, cls, t, p, i);
  }

  lemma LabelledAt(labels: seq<string>, numbered: bool, cls: CharClass, t: string, p: nat, i: nat)
    requires ColonAfterLabel(t, p, labels, numbered) == Some(i)
    ensures MatchAt(Labelled(labels, numbered, cls), t, p) == CaptureRun(t, i + 1, cls)
  {
    assert LabelledMatch(t, p, labels, numbered, cls) == CaptureRun(t, i + 1, cls);
  }

  lemma LabelledDateBest(labels: seq<string>, t: string, p: nat, a: int, b: int)
    requires Alternatives(labels) && Matches(LabelledDate(labels), t, p, a, b)
    ensures MatchAt(LabelledDate(labels), t, p).Some?
    ensures var c := MatchAt(LabelledDate(labels), t, p).value; a < c.lo || (a == c.lo && b <= c.hi)
  {
    var i :| ColonAt(t, p, labels, false, i) && i < a && AllIn(t, i + 1, a, Space);
    ColonComplete(t, p, labels, false, i);
    DateTokenStartsWithDigit(t, a, b);
    RunEndAt(t, i + 1, a, Space);
    DateTokenEndBest(t, a, b);
    LabelledDateAt(labels, t, p, i, a);
  }

  lemma LabelledDateAt(labels: seq<string>, t: string, p: nat, i: nat, a: nat)
    requires ColonAfterLabel(t, p, labels, false) == Some(i)
    requires a <= |t| && SkipSpaces(t, i + 1) == a && DateTokenEnd(t, a).Some?
    ensures MatchAt(LabelledDate(labels), t, p) == Some(Span(a, DateTokenEnd(t, a).value))
  {
    assert LabelledDateMatch(t, p, labels) == Some(Span(a, DateTokenEnd(t, a).value));
  }

  lemma SuffixedBest(cls: CharClass, suffixes: seq<string>, t: string, p: nat, a: int, b: int)
    requires Words(suffixes) && Matches(Suffixed(cls, suffixes), t, p, a, b)
    ensures MatchAt(Suffixed(cls, suffixes), t, p).Some?
    ensures var c := MatchAt(Suffixed(cls, suffixes), t, p).value; a < c.lo || (a == c.lo && b <= c.hi)
  {
    var w, e :| AllIn(t, b, w, Space) && AlternativeAt(t, w, suffixes, e);
    var word :| word in suffixes && WordAt(t, w, word) && e == w + |word|;
    var k :| 0 <= k < |suffixes| && suffixes[k] == word;
    WordStartsWithLetter(t, w, word);
    RunEndAt(t, b, w, Space);
    assert SuffixAfter(t, b, suffixes);
    var run := RunEnd(t, p, cls);
    assert run < b ==> ClassAt(t, run, cls);
    assert InClass(cls, t[p]);
  }

  /** `best` is preferred over, or equal to, a match at `p` with capture `t[a..b]`. */
  ghost predicate Preferred(best: Found, p: int, a: int, b: int) {
    || best.start < p
    || (best.start == p && (a < best.lo || (a == best.lo && b <= best.hi)))
  }

  /** `t.match(pat)` finds a match exactly when the regular language allows
      one, and the match it finds is the preferred one: the leftmost start,
      then the latest capture start, then the latest capture end. */
  lemma ExecIsLeftmostPreferred(pat: Pattern, t: string)
    requires WellFormed(pat)
    ensures Exec(pat, t).None? <==> forall p, a, b :: !Matches(pat, t, p, a, b)
    ensures Exec(pat, t).Some? ==>
      && Matches(pat, t, Exec(pat, t).value.start, Exec(pat, t).value.lo, Exec(pat, t).value.hi)
      && forall p, a, b :: Matches(pat, t, p, a, b) ==> Preferred(Exec(pat, t).value, p, a, b)
  {
    var r := Exec(pat, t);
    forall p, a, b | Matches(pat, t, p, a, b)
      ensures r.Some? && Preferred(r.value, p, a, b)
    {
      ExecFindsPreferred(pat, t, p, a, b);
    }
    if r.Some? {
      MatchAtSound(pat, t, r.value.start);
    }
  }

  /** One match at `p` with capture `t[a..b]`: `Exec` finds one that starts
      no later, and one that is preferred if it starts at `p` too. */
  lemma ExecFindsPreferred(pat: Pattern, t: string, p: int, a: int, b: int)
    requires WellFormed(pat) && Matches(pat, t, p, a, b)
    ensures Exec(pat, t).Some? && Preferred(Exec(pat, t).value, p, a, b)
  {
    var m := StartsIn(pat, t);
    LeftmostIsFirst(m, |t|, 0);
    MatchAtBest(pat, t, p, a, b);
    assert m(p) == MatchAt(pat, t, p);
  }

  /** A capture group of a class pattern holds only characters of its class. */
  lemma CaptureInClass(pat: Pattern, t: string)
    requires pat.Labelled? || pat.Suffixed?
    requires Exec(pat, t).Some?
    ensures AllIn(t, Exec(pat, t).value.lo, Exec(pat, t).value.hi, pat.cls)
  {
    MatchAtSound(pat, t, Exec(pat, t).value.start);
  }

  /** A capture group of a date pattern is a date token. */
  lemma CaptureIsDateToken(pat: Pattern, t: string)
    requires pat.LabelledDate? || pat.BareDate?
    requires Exec(pat, t).Some?
    ensures IsDateToken(t, Exec(pat, t).value.lo, Exec(pat, t).value.hi)
  {
    MatchAtSound(pat, t, Exec(pat, t).value.start);
  }
}
