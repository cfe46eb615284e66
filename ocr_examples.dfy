/** The certificate texts and label lists the examples below are about. */
module SampleTexts {
  const NameLabels: seq<string> := ["vaccine", "immunization", "shot"]
  const BatchLabels: seq<string> := ["batch", "lot", "serial"]
  const TetanusText := "Vaccine: Tetanus\nDate:"
  const ShotText := "Shot: \n4"
  const NumberedBatchText := "Batch No.: AB12"
  const PlainBatchText := "Batch: AB12"
}

/** What the labelled name and batch patterns extract from a text that starts
    with their label, and certificate texts on which this is worth knowing: a
    name that runs across a line break, a label with no name after it, and the
    batch label with and without `number`/`no`. */
module OcrExamples {
  import opened Common
  import opened JsText
  import opened CertificatePatterns
  import opened OcrService
  import opened SampleTexts

  lemma LabelledPatterns()
    ensures VaccinePatterns[0] == Labelled(NameLabels, false, NameChar)
    ensures BatchPatterns[0] == Labelled(BatchLabels, true, CodeChar)
  {
  }

  // ---------------------------------------------------------------------
  // Steps of a labelled match, stated for any text

  lemma FirstAlternative(t: string, p: nat, words: seq<string>)
    requires |words| > 0 && WordAt(t, p, words[0])
    ensures AlternativeEnd(t, p, words) == Some(p + |words[0]|)
  {
  }

  lemma LaterAlternative(t: string, p: nat, words: seq<string>)
    requires |words| > 0 && !WordAt(t, p, words[0])
    ensures AlternativeEnd(t, p, words) == AlternativeEnd(t, p, words[1..])
  {
  }

  /** A word is not at `p` when one of its letters differs from the text. */
  lemma WordMismatch(t: string, p: nat, w: string, k: nat)
    requires k < |w| && p + k < |t| && Lower(t[p + k]) != w[k]
    ensures !WordAt(t, p, w)
  {
  }

  /** A piece that neither starts nor ends with white space is its own trim. */
  lemma UnspacedPiece(t: string, lo: nat, hi: nat)
    requires lo < hi <= |t| && !IsSpace(t[lo]) && !IsSpace(t[hi - 1])
    ensures Trim(t[lo..hi]) == t[lo..hi]
  {
    TrimOfUnspaced(t[lo..hi]);
  }

  /** A single white-space character trims to the empty string. */
  lemma SpaceTrimsAway(s: string)
    requires |s| == 1 && IsSpace(s[0])
    ensures Trim(s) == ""
  {
    assert TrimStart(s[1..]) == "";
  }

  /** A label directly followed by `:`. */
  lemma ColonRightAfter(t: string, p: nat, labels: seq<string>, e: nat)
    requires AlternativeEnd(t, p, labels) == Some(e) && e < |t| && t[e] == ':'
    ensures ColonAfterLabel(t, p, labels, false) == Some(e)
  {
    RunEndAt(t, e, e, Space);
  }

  /** A label, white space, a `number`/`no` qualifier ending at `q`, white
      space, and `:` at `i`. */
  lemma ColonAfterQualifier(t: string, p: nat, labels: seq<string>, e: nat, s: nat, q: nat, i: nat)
    requires AlternativeEnd(t, p, labels) == Some(e)
    requires AllIn(t, e, s, Space) && s < |t| && !IsSpace(t[s])
    requires QualifierEnd(t, s) == Some(q)
    requires AllIn(t, q, i, Space) && i < |t| && t[i] == ':'
    ensures ColonAfterLabel(t, p, labels, true) == Some(i)
  {
    RunEndAt(t, e, s, Space);
    RunEndAt(t, q, i, Space);
  }

  /** White space from `s` to `j`, then a run of `cls` from `j` to `e`. */
  lemma CaptureAfterSpaces(t: string, s: nat, j: nat, e: nat, cls: CharClass)
    requires AllIn(t, s, j, Space) && j < |t| && !IsSpace(t[j]) && InClass(cls, t[j])
    requires AllIn(t, j, e, cls) && (e == |t| || !InClass(cls, t[e]))
    ensures CaptureRun(t, s, cls) == Some(Span(j, e))
  {
    RunEndAt(t, s, j, Space);
    RunEndAt(t, j, e, cls);
  }

  /** White space from `s` to `j` and no class character after it: the last
      white-space character is given back and captured alone. */
  lemma CaptureGivesBack(t: string, s: nat, j: nat, cls: CharClass)
    requires s < j && AllIn(t, s, j, Space) && InClass(cls, t[j - 1])
    requires j == |t| || (!IsSpace(t[j]) && !InClass(cls, t[j]))
    ensures CaptureRun(t, s, cls) == Some(Span(j - 1, j))
  {
    RunEndAt(t, s, j, Space);
  }

  /** The labelled name pattern matching at the start decides the name. */
  lemma NameFromLabel(t: string, lo: nat, hi: nat)
    requires MatchAt(VaccinePatterns[0], t, 0) == Some(Span(lo, hi))
    ensures lo <= hi <= |t| && VaccineInfo(t).name == Trim(t[lo..hi])
  {
    CaptureAtStart(VaccinePatterns[0], t);
    LabelledFieldWins(VaccinePatterns, t);
  }

  /** The labelled batch pattern matching at the start decides the batch number. */
  lemma BatchFromLabel(t: string, lo: nat, hi: nat)
    requires MatchAt(BatchPatterns[0], t, 0) == Some(Span(lo, hi))
    ensures lo <= hi <= |t| && VaccineInfo(t).batchNumber == Trim(t[lo..hi])
  {
    CaptureAtStart(BatchPatterns[0], t);
    LabelledFieldWins(BatchPatterns, t);
  }

  // ---------------------------------------------------------------------
  // A text that starts `Vaccine: Tetanus\nDate:`

  /** `\s` includes the line break, so a name label followed by a line that
      starts with another label captures both lines: the name extracted from
      `Vaccine: Tetanus\nDate: 01/15/2023` is `Tetanus\nDate`. */
  lemma NameRunsAcrossLines(t: string)
    requires TetanusText <= t
    ensures VaccineInfo(t).name == "Tetanus\nDate"
  {
    TetanusPieces(t);
    TetanusMatch(t);
    NameFromLabel(t, 9, 21);
    UnspacedPiece(t, 9, 21);
  }

  lemma TetanusMatch(t: string)
    requires "Vaccine:" <= t && |t| >= 8 && " Tetanus\nDate:" <= t[8..]
    ensures MatchAt(VaccinePatterns[0], t, 0) == Some(Span(9, 21))
    ensures !IsSpace(t[9]) && !IsSpace(t[20]) && t[9..21] == "Tetanus\nDate"
  {
    LabelledPatterns();
    TetanusLabel(t);
    ColonRightAfter(t, 0, NameLabels, 7);
    TetanusRun(t);
    CaptureAfterSpaces(t, 8, 9, 21, NameChar);
  }

  lemma TetanusPieces(t: string)
    requires TetanusText <= t
    ensures "Vaccine:" <= t && |t| >= 8 && " Tetanus\nDate:" <= t[8..]
  {
    assert t[8..][..14] == t[8..22];
  }

  lemma TetanusLabel(t: string)
    requires "Vaccine:" <= t
    ensures AlternativeEnd(t, 0, NameLabels) == Some(7) && t[7] == ':'
  {
    assert t[..7] == "Vaccine";
    assert WordAt(t, 0, NameLabels[0]);
    FirstAlternative(t, 0, NameLabels);
  }

  lemma TetanusRun(t: string)
    requires |t| >= 8 && " Tetanus\nDate:" <= t[8..]
    ensures AllIn(t, 8, 9, Space) && AllIn(t, 9, 21, NameChar) && !InClass(NameChar, t[21])
    ensures !IsSpace(t[9]) && !IsSpace(t[20]) && t[9..21] == "Tetanus\nDate"
  {
    assert forall k :: 8 <= k < 22 ==> t[k] == t[8..][k - 8];
  }

  // ---------------------------------------------------------------------
  // A text that starts `Shot: \n4`

  /** The label `Shot:` followed by white space and a digit gives the empty
      name, and the certificate is rejected for its name. */
  lemma LabelWithoutNameGivesEmptyName(t: string)
    requires ShotText <= t
    ensures VaccineInfo(t).name == ""
    ensures Validate(VaccineInfo(t)) == Failure(NameNotFound)
  {
    ShotMatch(t);
    NameFromLabel(t, 6, 7);
    SpaceTrimsAway(t[6..7]);
  }

  lemma ShotMatch(t: string)
    requires ShotText <= t
    ensures MatchAt(VaccinePatterns[0], t, 0) == Some(Span(6, 7))
    ensures |t[6..7]| == 1 && IsSpace(t[6..7][0])
  {
    LabelledPatterns();
    ShotLabel(t);
    ColonRightAfter(t, 0, NameLabels, 4);
    ShotRun(t);
  }

  lemma ShotRun(t: string)
    requires ShotText <= t
    ensures CaptureRun(t, 5, NameChar) == Some(Span(6, 7))
    ensures |t[6..7]| == 1 && IsSpace(t[6..7][0])
  {
    CaptureGivesBack(t, 5, 7, NameChar);
  }

  lemma ShotLabel(t: string)
    requires ShotText <= t
    ensures AlternativeEnd(t, 0, NameLabels) == Some(4) && t[4] == ':'
  {
    assert t[..4] == "Shot";
    assert Lower(t[0]) == 's';
    WordMismatch(t, 0, NameLabels[0], 0);
    LaterAlternative(t, 0, NameLabels);
    WordMismatch(t, 0, NameLabels[1..][0], 0);
    LaterAlternative(t, 0, NameLabels[1..]);
    assert WordAt(t, 0, NameLabels[1..][1..][0]);
    FirstAlternative(t, 0, NameLabels[1..][1..]);
  }

  // ---------------------------------------------------------------------
  // `Batch No.: AB12` and `Batch: AB12`

  /** With `No.` between the label and the colon, the labelled batch pattern
      captures the code after the colon. */
  lemma BatchLabelWithNumber(t: string)
    requires NumberedBatchText <= t
    requires |t| == 15 || !InClass(CodeChar, t[15])
    ensures VaccineInfo(t).batchNumber == "AB12"
  {
    BatchPieces(t);
    NumberedBatchMatch(t);
    BatchFromLabel(t, 11, 15);
    UnspacedPiece(t, 11, 15);
  }

  lemma NumberedBatchMatch(t: string)
    requires "Batch No.:" <= t && |t| >= 10 && " AB12" <= t[10..]
    requires |t| == 15 || !InClass(CodeChar, t[15])
    ensures MatchAt(BatchPatterns[0], t, 0) == Some(Span(11, 15))
    ensures !IsSpace(t[11]) && !IsSpace(t[14]) && t[11..15] == "AB12"
  {
    LabelledPatterns();
    NumberedBatchLabel(t);
    NumberedBatchQualifier(t);
    ColonAfterQualifier(t, 0, BatchLabels, 5, 6, 9, 9);
    BatchCode(t);
    CaptureAfterSpaces(t, 10, 11, 15, CodeChar);
  }

  lemma BatchPieces(t: string)
    requires NumberedBatchText <= t
    ensures "Batch No.:" <= t && |t| >= 10 && " AB12" <= t[10..]
  {
    assert t[10..][..5] == t[10..15];
  }

  lemma NumberedBatchLabel(t: string)
    requires "Batch No.:" <= t
    ensures AlternativeEnd(t, 0, BatchLabels) == Some(5)
  {
    assert t[..5] == "Batch";
    assert WordAt(t, 0, BatchLabels[0]);
    FirstAlternative(t, 0, BatchLabels);
  }

  lemma NumberedBatchQualifier(t: string)
    requires "Batch No.:" <= t
    ensures AllIn(t, 5, 6, Space) && !IsSpace(t[6]) && AllIn(t, 9, 9, Space) && t[9] == ':'
    ensures QualifierEnd(t, 6) == Some(9)
  {
    assert Lower(t[8]) == '.';
    WordMismatch(t, 6, "number", 2);
    assert t[6..8] == "No";
    assert WordAt(t, 6, "no");
  }

  lemma BatchCode(t: string)
    requires |t| >= 10 && " AB12" <= t[10..]
    ensures AllIn(t, 10, 11, Space) && AllIn(t, 11, 15, CodeChar) && !IsSpace(t[11])
    ensures !IsSpace(t[14]) && t[11..15] == "AB12"
  {
    assert forall k :: 10 <= k < 15 ==> t[k] == t[10..][k - 10];
  }

  /** Without `number` or `no` between the label and the colon, the labelled
      batch pattern finds nothing. */
  lemma BatchLabelWithoutNumber(t: string)
    requires t == PlainBatchText
    ensures Exec(BatchPatterns[0], t).None?
  {
    assert forall k :: 0 <= k < |t| ==> Lower(t[k]) != 'n';
    LabelledBatchNeedsQualifier(t);
    if Exec(BatchPatterns[0], t).Some? {
      var e, s, q, i :| AlternativeAt(t, Exec(BatchPatterns[0], t).value.start, ["batch", "lot", "serial"], e)
        && AllIn(t, e, s, Space) && QualifierAt(t, s, q) && AllIn(t, q, i, Space) && 0 <= i < |t| && t[i] == ':';
      QualifierStartsWithN(t, s, q);
      assert false;
    }
  }
}
