/** The certificate reader of the backend: it turns an uploaded document into
    text (PDF text extraction or OCR of an image), recovers the vaccine name,
    date, provider and batch number from that text with ordered lists of
    regular expressions, and rejects results without a name or a date. */
module OcrService {
  import opened Common
  import opened JsText
  import opened CertificatePatterns

  // ---------------------------------------------------------------------
  // The pattern lists of `extractVaccineInfo`

  /** `(?:vaccine|immunization|shot)\s*:\s*([A-Za-z\s-]+)`, then `([A-Za-z\s-]+)\s*(?:vaccine|immunization|shot)` */
  const VaccinePatterns: seq<Pattern> := [
    Labelled(["vaccine", "immunization", "shot"], false, NameChar),
    Suffixed(NameChar, ["vaccine", "immunization", "shot"])
  ]

  /** `(?:date|administered|given)\s*:\s*(\d{1,2}[-/]\d{1,2}[-/]\d{2,4})`, then the bare date token */
  const DatePatterns: seq<Pattern> := [
    LabelledDate(["date", "administered", "given"]),
    BareDate
  ]

  /** `(?:provider|doctor|clinic)\s*:\s*([A-Za-z\s-]+)`, then `([A-Za-z\s-]+)\s*(?:hospital|clinic|center)` */
  const ProviderPatterns: seq<Pattern> := [
    Labelled(["provider", "doctor", "clinic"], false, NameChar),
    Suffixed(NameChar, ["hospital", "clinic", "center"])
  ]

  /** `(?:batch|lot|serial)\s*(?:number|no\.?)\s*:\s*([A-Z0-9-]+)`, then `([A-Z0-9-]+)\s*(?:batch|lot|serial)` */
  const BatchPatterns: seq<Pattern> := [
    Labelled(["batch", "lot", "serial"], true, CodeChar),
    Suffixed(CodeChar, ["batch", "lot", "serial"])
  ]

  /** Every pattern of the four lists is one `Exec` handles faithfully. */
  lemma PatternListsWellFormed()
    ensures forall pat :: pat in VaccinePatterns ==> WellFormed(pat)
    ensures forall pat :: pat in DatePatterns ==> WellFormed(pat)
    ensures forall pat :: pat in ProviderPatterns ==> WellFormed(pat)
    ensures forall pat :: pat in BatchPatterns ==> WellFormed(pat)
  {
    assert "vaccine"[0] == 'v' && "immunization"[0] == 'i' && "shot"[0] == 's';
    assert "date"[0] == 'd' && "administered"[0] == 'a' && "given"[0] == 'g';
    assert "provider"[0] == 'p' && "doctor"[0] == 'd' && "clinic"[0] == 'c';
    assert "hospital"[0] == 'h' && "center"[0] == 'c';
    assert "batch"[0] == 'b' && "lot"[0] == 'l' && "serial"[0] == 's';
  }

  // ---------------------------------------------------------------------
  // Field extraction

  /** The capture of the first pattern, in list order, that matches `text`. */
  function FirstCapture(patterns: seq<Pattern>, text: string): (r: Option<string>)
    ensures r.None? <==> forall i :: 0 <= i < |patterns| ==> Capture(patterns[i], text).None?
    ensures r.Some? ==> r.value != [] && exists i :: FirstMatching(patterns, text, i) && Capture(patterns[i], text) == r
  {
    if |patterns| == 0 then None
    else if Capture(patterns[0], text).Some? then
      assert FirstMatching(patterns, text, 0);
      Capture(patterns[0], text)
    else
      var r := FirstCapture(patterns[1..], text);
      assert r.Some? ==> exists i :: FirstMatching(patterns, text, i) && Capture(patterns[i], text) == r by {
        if r.Some? {
          var i :| FirstMatching(patterns[1..], text, i) && Capture(patterns[1..][i], text) == r;
          assert FirstMatching(patterns, text, i + 1);
        }
      }
      r
  }

  /** `patterns[i]` matches `text` and no pattern before it does. */
  ghost predicate FirstMatching(patterns: seq<Pattern>, text: string, i: int) {
    && 0 <= i < |patterns| && Capture(patterns[i], text).Some?
    && forall j :: 0 <= j < i ==> Capture(patterns[j], text).None?
  }

  /** One field loop of `extractVaccineInfo`: try the patterns in order and
      stop at the first whose capture group is non-empty. The raw capture is
      returned; the caller trims it or not. */
  method ScanPatterns(patterns: seq<Pattern>, text: string) returns (r: Option<string>)
    ensures r == FirstCapture(patterns, text)
  {
    r := None;
    var i := 0;
    while i < |patterns|
      invariant 0 <= i <= |patterns| && r.None?
      invariant FirstCapture(patterns[i..], text) == FirstCapture(patterns, text)
    {
      var m := Capture(patterns[i], text);
      if m.Some? && m.value != "" {
        r := m;
        return;
      }
      assert patterns[i..][1..] == patterns[i + 1..];
      i := i + 1;
    }
  }

  /** The value `new Date(s)` built from a date string. Any such object is
      truthy, whether or not `s` parses, so only its source text matters here. */
  datatype JsDate = DateFrom(source: string)

  /** The `Partial<IVaccine>` that `extractVaccineInfo` returns. */
  datatype VaccineDraft = VaccineDraft(name: string, date: Option<JsDate>, provider: string, batchNumber: string)

  /** A trimmed field: the empty string when no pattern matched. */
  function TrimmedField(c: Option<string>): string {
    if c.Some? then Trim(c.value) else ""
  }

  /** What `extractVaccineInfo(text)` returns. */
  function VaccineInfo(text: string): VaccineDraft {
    var date := if FirstCapture(DatePatterns, text).Some? then FirstCapture(DatePatterns, text).value else "";
    VaccineDraft(
      TrimmedField(FirstCapture(VaccinePatterns, text)),
      if date != "" then Some(DateFrom(date)) else None,
      TrimmedField(FirstCapture(ProviderPatterns, text)),
      TrimmedField(FirstCapture(BatchPatterns, text)))
  }

  /** `extractVaccineInfo`: the four field loops, then the result object. */
  method ExtractVaccineInfo(text: string) returns (d: VaccineDraft)
    ensures d == VaccineInfo(text)
  {
    var vaccineName := "";
    var c := ScanPatterns(VaccinePatterns, text);
    if c.Some? {
      vaccineName := Trim(c.value);
    }
    var date := "";
    c := ScanPatterns(DatePatterns, text);
    if c.Some? {
      date := c.value;
    }
    var provider := "";
    c := ScanPatterns(ProviderPatterns, text);
    if c.Some? {
      provider := Trim(c.value);
    }
    var batchNumber := "";
    c := ScanPatterns(BatchPatterns, text);
    if c.Some? {
      batchNumber := Trim(c.value);
    }
    d := VaccineDraft(vaccineName, if date != "" then Some(DateFrom(date)) else None, provider, batchNumber);
  }

  // ---------------------------------------------------------------------
  // What the extracted fields look like

  /** A labelled field wins over the unlabelled pattern, even when the
      labelled capture trims to the empty string. */
  lemma LabelledFieldWins(patterns: seq<Pattern>, text: string)
    requires |patterns| == 2 && Capture(patterns[0], text).Some?
    ensures TrimmedField(FirstCapture(patterns, text)) == Trim(Capture(patterns[0], text).value)
  {
    assert FirstMatching(patterns, text, 0);
  }

  /** `r` holds only characters of `cls`, neither starts nor ends with white
      space, and occurs in `text`. */
  ghost predicate FieldShape(text: string, cls: CharClass, r: string) {
    && (forall k :: 0 <= k < |r| ==> InClass(cls, r[k]))
    && (r == [] || (!IsSpace(r[0]) && !IsSpace(r[|r| - 1])))
    && Includes(text, r)
  }

  /** A trimmed capture of a class pattern has the shape of a field. */
  lemma TrimmedCaptureShape(pat: Pattern, text: string, s: string)
    requires (pat.Labelled? || pat.Suffixed?) && Capture(pat, text) == Some(s)
    ensures FieldShape(text, pat.cls, TrimmedField(Some(s)))
  {
    var f := Exec(pat, text).value;
    CaptureInClass(pat, text);
    TrimmedPieceShape(text, f.lo, f.hi, pat.cls);
  }

  /** `Trim` of a piece of `text` made of `cls` characters. */
  lemma TrimmedPieceShape(text: string, lo: int, hi: int, cls: CharClass)
    requires AllIn(text, lo, hi, cls)
    ensures var r := Trim(text[lo..hi]);
      && (forall k :: 0 <= k < |r| ==> InClass(cls, r[k]))
      && Includes(text, r)
  {
    var c := text[lo..hi];
    var r := Trim(c);
    var k :| TrimmedAt(c, k, r);
    PieceOfPiece(text, lo, hi, k, r);
  }

  /** A prefix of `text[lo..hi][k..]` is a piece of `text`. */
  lemma PieceOfPiece(text: string, lo: int, hi: int, k: int, r: string)
    requires 0 <= lo <= hi <= |text| && 0 <= k <= hi - lo && r <= text[lo..hi][k..]
    ensures forall j :: 0 <= j < |r| ==> r[j] == text[lo + k + j]
    ensures Includes(text, r)
  {
    assert forall j :: 0 <= j < |r| ==> r[j] == text[lo..hi][k..][j];
    assert r <= text[lo + k..];
  }

  /** The vaccine name and the provider are empty or a piece of the text made
      of letters, white space and hyphens that neither starts nor ends with
      white space. */
  lemma NameAndProviderShape(text: string)
    ensures FieldShape(text, NameChar, VaccineInfo(text).name)
    ensures FieldShape(text, NameChar, VaccineInfo(text).provider)
  {
    ClassFieldShape(VaccinePatterns, NameChar, text);
    ClassFieldShape(ProviderPatterns, NameChar, text);
  }

  /** The batch number is empty or a piece of the text made of letters, digits
      and hyphens; trimming never changes it. */
  lemma BatchNumberShape(text: string)
    ensures var d := VaccineInfo(text);
      && (forall k :: 0 <= k < |d.batchNumber| ==> InClass(CodeChar, d.batchNumber[k]))
      && Includes(text, d.batchNumber)
      && (FirstCapture(BatchPatterns, text).Some? ==> d.batchNumber == FirstCapture(BatchPatterns, text).value)
  {
    ClassFieldShape(BatchPatterns, CodeChar, text);
    FirstCaptureOfTwo(BatchPatterns, text);
    var c0, c1 := Capture(BatchPatterns[0], text), Capture(BatchPatterns[1], text);
    if c0.Some? {
      CodeCaptureUntrimmed(BatchPatterns[0], text, c0.value);
    } else if c1.Some? {
      CodeCaptureUntrimmed(BatchPatterns[1], text, c1.value);
    }
  }

  /** Trimming leaves the capture of a code pattern unchanged. */
  lemma CodeCaptureUntrimmed(pat: Pattern, text: string, s: string)
    requires (pat.Labelled? || pat.Suffixed?) && pat.cls == CodeChar && Capture(pat, text) == Some(s)
    ensures Trim(s) == s
  {
    var f := Exec(pat, text).value;
    CaptureInClass(pat, text);
    TrimOfCodeRun(text, f.lo, f.hi);
  }

  /** A non-empty run of letters, digits and hyphens is its own trim. */
  lemma TrimOfCodeRun(text: string, lo: int, hi: int)
    requires lo < hi && AllIn(text, lo, hi, CodeChar)
    ensures Trim(text[lo..hi]) == text[lo..hi]
  {
    var s := text[lo..hi];
    assert s[0] == text[lo] && s[|s| - 1] == text[hi - 1];
    assert ClassAt(text, lo, CodeChar) && ClassAt(text, hi - 1, CodeChar);
    TrimOfUnspaced(s);
  }

  /** Whichever of a labelled and an unlabelled class pattern supplies the
      field, it has the shape of a field; so does the empty default. */
  lemma ClassFieldShape(patterns: seq<Pattern>, cls: CharClass, text: string)
    requires |patterns| == 2 && (patterns[0].Labelled? || patterns[0].Suffixed?) && patterns[0].cls == cls
    requires patterns[1].Suffixed? && patterns[1].cls == cls
    ensures FieldShape(text, cls, TrimmedField(FirstCapture(patterns, text)))
  {
    FirstCaptureOfTwo(patterns, text);
    var c0, c1 := Capture(patterns[0], text), Capture(patterns[1], text);
    if c0.Some? {
      TrimmedCaptureShape(patterns[0], text, c0.value);
    } else if c1.Some? {
      TrimmedCaptureShape(patterns[1], text, c1.value);
    } else {
      EmptyFieldShape(text, cls);
    }
  }

  /** With two patterns, the second is tried only when the first finds nothing. */
  lemma FirstCaptureOfTwo(patterns: seq<Pattern>, text: string)
    requires |patterns| == 2
    ensures FirstCapture(patterns, text) ==
      if Capture(patterns[0], text).Some? then Capture(patterns[0], text) else Capture(patterns[1], text)
  {
    assert patterns[1..][0] == patterns[1] && |patterns[1..][1..]| == 0;
  }

  /** The empty default has the shape of a field. */
  lemma EmptyFieldShape(text: string, cls: CharClass)
    ensures FieldShape(text, cls, TrimmedField(None))
  {
    assert "" <= text[0..];
  }

  /** A date token found at `t[a..b]` is a date token on its own. */
  lemma DateTokenSlice(t: string, a: int, b: int)
    requires IsDateToken(t, a, b)
    ensures IsDateToken(t[a..b], 0, b - a)
  {
    var s := t[a..b];
    forall d1, d2 | DateShape(t, a, b, d1, d2)
      ensures DateShape(s, 0, b - a, d1, d2)
    {
      assert forall k :: 0 <= k < b - a ==> s[k] == t[a + k];
    }
  }

  /** The date is absent exactly when the text holds no date token at all;
      when present, its source is a date token of the text, untrimmed. */
  lemma DateField(text: string)
    ensures VaccineInfo(text).date.None? <==> forall a, b :: !IsDateToken(text, a, b)
    ensures VaccineInfo(text).date.Some? ==>
      var s := VaccineInfo(text).date.value.source;
      IsDateToken(s, 0, |s|) && Includes(text, s)
  {
    FirstCaptureOfTwo(DatePatterns, text);
    var c0, c1 := Capture(DatePatterns[0], text), Capture(DatePatterns[1], text);
    if c0.Some? {
      DateCaptureShape(DatePatterns[0], text, c0.value);
    } else if c1.Some? {
      DateCaptureShape(DatePatterns[1], text, c1.value);
    } else {
      NoDateToken(text);
    }
  }

  /** The capture of a date pattern is a date token of the text. */
  lemma DateCaptureShape(pat: Pattern, text: string, s: string)
    requires (pat.LabelledDate? || pat.BareDate?) && Capture(pat, text) == Some(s)
    ensures IsDateToken(s, 0, |s|) && Includes(text, s)
    ensures exists a, b :: IsDateToken(text, a, b)
  {
    var f := Exec(pat, text).value;
    CaptureIsDateToken(pat, text);
    assert IsDateToken(text, f.lo, f.hi);
    DateTokenSlice(text, f.lo, f.hi);
    assert text[f.lo..f.hi] <= text[f.lo..];
  }

  /** When the bare date pattern finds nothing, no date token occurs anywhere. */
  lemma NoDateToken(text: string)
    requires Capture(BareDate, text).None?
    ensures forall a, b :: !IsDateToken(text, a, b)
  {
    ExecIsLeftmostPreferred(BareDate, text);
    forall a, b
      ensures !IsDateToken(text, a, b)
    {
      DateTokenBounds(text, a, b);
      assert IsDateToken(text, a, b) ==> Matches(BareDate, text, a, a, b);
    }
  }

  lemma DateTokenBounds(t: string, a: int, b: int)
    ensures IsDateToken(t, a, b) ==> 0 <= a < b <= |t|
  {
  }

  /** The labelled batch pattern matches only where `number`, `no` or `no.`
      stands between the label and the colon. */
  lemma LabelledBatchNeedsQualifier(t: string)
    ensures Exec(BatchPatterns[0], t).Some? ==>
      exists e, s, q, i ::
        && AlternativeAt(t, Exec(BatchPatterns[0], t).value.start, ["batch", "lot", "serial"], e)
        && AllIn(t, e, s, Space) && QualifierAt(t, s, q)
        && AllIn(t, q, i, Space) && 0 <= i < |t| && t[i] == ':'
  {
    PatternListsWellFormed();
    NumberedNeedsQualifier(BatchPatterns[0], t);
  }

  /** A numbered labelled pattern matches only where a qualifier stands
      between the label and the colon. */
  lemma NumberedNeedsQualifier(pat: Pattern, t: string)
    requires WellFormed(pat) && pat.Labelled? && pat.numbered
    ensures Exec(pat, t).Some? ==>
      exists e, s, q, i ::
        && AlternativeAt(t, Exec(pat, t).value.start, pat.labels, e)
        && AllIn(t, e, s, Space) && QualifierAt(t, s, q)
        && AllIn(t, q, i, Space) && 0 <= i < |t| && t[i] == ':'
  {
    if Exec(pat, t).Some? {
      ExecIsLeftmostPreferred(pat, t);
      var f := Exec(pat, t).value;
      var i :| ColonAt(t, f.start, pat.labels, true, i) && i < f.lo && AllIn(t, i + 1, f.lo, Space);
      var q :| LabelPartAt(t, f.start, pat.labels, true, q) && AllIn(t, q, i, Space);
      var e, s :| AlternativeAt(t, f.start, pat.labels, e) && AllIn(t, e, s, Space) && QualifierAt(t, s, q);
    }
  }

  /** A qualifier starts with the letter `n`. */
  lemma QualifierStartsWithN(t: string, s: int, q: int)
    requires QualifierAt(t, s, q)
    ensures 0 <= s < |t| && Lower(t[s]) == 'n'
  {
    if WordAt(t, s, "number") {
      assert Lower(t[s + 0]) == "number"[0];
    } else {
      assert Lower(t[s + 0]) == "no"[0];
    }
  }

  /** A pattern that matches at the start of the text captures what it matches there. */
  lemma CaptureAtStart(pat: Pattern, t: string)
    requires MatchAt(pat, t, 0).Some?
    ensures Capture(pat, t) == Some(t[MatchAt(pat, t, 0).value.lo..MatchAt(pat, t, 0).value.hi])
  {
    assert StartsIn(pat, t)(0) == MatchAt(pat, t, 0);
  }

  // ---------------------------------------------------------------------
  // Validation and the certificate pipeline

  /** The errors `processCertificate` throws. */
  datatype CertificateError =
    | ReadFailed(cause: string)  // the text source threw
    | NameNotFound
    | DateNotFound

  function Message(e: CertificateError): string {
    match e
    case ReadFailed(cause) => cause
    case NameNotFound => "Could not extract vaccine name from certificate"
    case DateNotFound => "Could not extract vaccine date from certificate"
  }

  /** The checks of `processCertificate` on the extracted draft: the name is
      checked first, then the date; a draft that passes is returned unchanged. */
  function Validate(d: VaccineDraft): (r: Result<VaccineDraft, CertificateError>)
    ensures r.Success? <==> d.name != "" && d.date.Some?
    ensures r.Success? ==> r.value == d
    ensures d.name == "" ==> r == Failure(NameNotFound)
    ensures d.name != "" && d.date.None? ==> r == Failure(DateNotFound)
  {
    if d.name == "" then Failure(NameNotFound)
    else if d.date.None? then Failure(DateNotFound)
    else Success(d)
  }

  /** An OCR engine instance. */
  datatype Worker = Worker(language: string)

  /** The foreign libraries the service calls, as the results they give:
      `pdf-parse`, `createWorker` of tesseract.js, the `sharp` resize and
      normalisation, and the worker's `recognize`. A `Failure` is a rejection. */
  datatype TextSources = TextSources(
    parsePdf: seq<byte> -> Result<string, string>,
    createWorker: string -> Result<Worker, string>,
    optimize: seq<byte> -> Result<seq<byte>, string>,
    recognize: (Worker, seq<byte>) -> Result<string, string>)

  const PdfType := "application/pdf"

  /** The worker after `initializeWorker`, from the worker before it. */
  function WorkerAfterInit(env: TextSources, w: Option<Worker>): Option<Worker> {
    if w.Some? then w
    else if env.createWorker("eng").Success? then Some(env.createWorker("eng").value)
    else None
  }

  /** The text `processImage` returns (or the error it throws) when the
      service holds the worker `w`. */
  function ImageText(env: TextSources, w: Option<Worker>, buffer: seq<byte>): Result<string, string> {
    if w.None? && env.createWorker("eng").Failure? then Failure(env.createWorker("eng").error)
    else
      var worker := WorkerAfterInit(env, w).value;
      match env.optimize(buffer)
      case Failure(e) => Failure(e)
      case Success(image) => env.recognize(worker, image)
  }

  /** The text of the document: `processPDF` for PDF input, `processImage` otherwise. */
  function DocumentText(env: TextSources, w: Option<Worker>, buffer: seq<byte>, fileType: string): Result<string, string> {
    if fileType == PdfType then env.parsePdf(buffer) else ImageText(env, w, buffer)
  }

  /** What `processCertificate` returns or throws. */
  function CertificateOutcome(env: TextSources, w: Option<Worker>, buffer: seq<byte>, fileType: string): Result<VaccineDraft, CertificateError> {
    match DocumentText(env, w, buffer, fileType)
    case Failure(e) => Failure(ReadFailed(e))
    case Success(text) => Validate(VaccineInfo(text))
  }

  /** The certificate reader with its OCR worker, created on first use and
      released after every certificate. */
  class OcrReader {
    var worker: Option<Worker>

    constructor ()
      ensures worker.None?
    {
      worker := None;
    }

    /** `initializeWorker`: create a worker unless one is held. */
    method InitializeWorker(env: TextSources) returns (r: Result<(), string>)
      modifies this
      ensures worker == WorkerAfterInit(env, old(worker))
      ensures r.Failure? <==> old(worker).None? && env.createWorker("eng").Failure?
      ensures r.Failure? ==> r.error == env.createWorker("eng").error
    {
      r := Success(());
      if worker.None? {
        var created := env.createWorker("eng");
        if created.Failure? {
          return Failure(created.error);
        }
        worker := Some(created.value);
      }
    }

    /** `cleanupWorker`: terminate and drop the worker, if any. */
    method CleanupWorker()
      modifies this
      ensures worker.None?
    {
      if worker.Some? {
        worker := None;
      }
    }

    /** `processImage`: make sure a worker exists, then optimise the image and recognise it. */
    method ProcessImage(env: TextSources, buffer: seq<byte>) returns (r: Result<string, string>)
      modifies this
      ensures worker == WorkerAfterInit(env, old(worker))
      ensures r == ImageText(env, old(worker), buffer)
    {
      var init := InitializeWorker(env);
      if init.Failure? {
        return Failure(init.error);
      }
      // The "OCR worker not initialized" error cannot be thrown here.
      assert worker.Some?;
      var optimized := env.optimize(buffer);
      if optimized.Failure? {
        return Failure(optimized.error);
      }
      r := env.recognize(worker.value, optimized.value);
    }

    /** `processCertificate`: read the document, extract and validate its
      fields, and release the worker whatever happens. */
    method ProcessCertificate(env: TextSources, buffer: seq<byte>, fileType: string)
      returns (r: Result<VaccineDraft, CertificateError>)
      modifies this
      ensures worker.None?
      ensures r == CertificateOutcome(env, old(worker), buffer, fileType)
    {
      var text: Result<string, string>;
      if fileType == PdfType {
        text := env.parsePdf(buffer);
      } else {
        text := ProcessImage(env, buffer);
      }
      if text.Failure? {
        r := Failure(ReadFailed(text.error));
      } else {
        var info := ExtractVaccineInfo(text.value);
        if info.name == "" {
          r := Failure(NameNotFound);
        } else if info.date.None? {
          r := Failure(DateNotFound);
        } else {
          r := Success(info);
        }
      }
      CleanupWorker();
    }
  }

  // ---------------------------------------------------------------------
  // Properties of the pipeline

  /** PDF input never touches the OCR capabilities nor depends on the worker held. */
  lemma PdfBypassesOcr(env1: TextSources, env2: TextSources, w1: Option<Worker>, w2: Option<Worker>, buffer: seq<byte>)
    requires env1.parsePdf == env2.parsePdf
    ensures CertificateOutcome(env1, w1, buffer, PdfType) == CertificateOutcome(env2, w2, buffer, PdfType)
  {
  }

  /** Any other content type is read by OCR, never by the PDF parser. */
  lemma OtherTypesUseOcr(env1: TextSources, env2: TextSources, w: Option<Worker>, buffer: seq<byte>, fileType: string)
    requires fileType != PdfType
    requires env1.createWorker == env2.createWorker && env1.optimize == env2.optimize && env1.recognize == env2.recognize
    ensures CertificateOutcome(env1, w, buffer, fileType) == CertificateOutcome(env2, w, buffer, fileType)
  {
    assert DocumentText(env1, w, buffer, fileType) == DocumentText(env2, w, buffer, fileType);
  }

  /** A certificate is accepted exactly when its text yields a non-empty name
      and some date, and then the extracted draft is returned as it is; an
      empty name is reported before a missing date. */
  lemma CertificateAccepted(env: TextSources, w: Option<Worker>, buffer: seq<byte>, fileType: string)
    ensures var r := CertificateOutcome(env, w, buffer, fileType);
      var text := DocumentText(env, w, buffer, fileType);
      && (r.Success? <==> text.Success? && VaccineInfo(text.value).name != "" && VaccineInfo(text.value).date.Some?)
      && (r.Success? ==> r.value == VaccineInfo(text.value))
      && (text.Success? && VaccineInfo(text.value).name == "" ==> r == Failure(NameNotFound))
      && (text.Failure? ==> r == Failure(ReadFailed(text.error)))
  {
  }

  /** An accepted certificate carries a name of letters, white space and hyphens
      found in the text, and a date whose source is a date token of the text. */
  lemma AcceptedCertificateShape(env: TextSources, w: Option<Worker>, buffer: seq<byte>, fileType: string)
    requires CertificateOutcome(env, w, buffer, fileType).Success?
    ensures var d := CertificateOutcome(env, w, buffer, fileType).value;
      var text := DocumentText(env, w, buffer, fileType).value;
      && d.name != "" && Includes(text, d.name)
      && (forall k :: 0 <= k < |d.name| ==> InClass(NameChar, d.name[k]))
      && d.date.Some? && IsDateToken(d.date.value.source, 0, |d.date.value.source|)
      && Includes(text, d.date.value.source)
  {
    var text := DocumentText(env, w, buffer, fileType).value;
    NameAndProviderShape(text);
    DateField(text);
  }
}
