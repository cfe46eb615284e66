# Unplug Health Vault: verified model of the certificate pipeline and the interaction matchers

This project models in Dafny the parts of Unplug Health Vault that make
decisions. It proves what those parts promise.

- **Certificate reader** (`backend/src/services/ocrService.ts`). An uploaded
  document becomes text: PDF text extraction for `application/pdf`, OCR of the
  image otherwise. Four ordered pairs of regular expressions recover the
  vaccine name, date, provider and batch number from that text. A result
  without a name or a date is rejected. The OCR worker is created on first use
  and released after every certificate.
- **Recommendation engine** (`backend/src/controllers/vaccineController.ts`).
  A fixed schedule (Tetanus, Flu Shot, Pneumonia) is compared with a user's
  vaccination history. Every entry that is due yields one recommendation, due
  30 days from today.
- **Status rule** (`src/lib/services/vaccineService.ts`). A record is
  completed, pending or overdue, depending on its next due date and today.
- **Drug-interaction matchers.** `findMockInteractions` and the search
  fallback of `src/lib/services/drugService.ts`. The pairwise,
  case-insensitive `mockCheckDrugInteractions` and the keyword
  `mockCheckSymptoms` of `src/lib/services/aiService.ts`.

Modules:

| file | module | what it holds |
|---|---|---|
| `common.dfy` | `Common` | `Option`, `Result`, interaction severity, bytes |
| `jstext.dfy` | `JsText` | `\s`, `toLowerCase`, `includes`, `trim` |
| `jsarray.dfy` | `JsArray` | `filter`, `map`, `find`, subsequences |
| `patterns.dfy` | `CertificatePatterns` | the four regular-expression shapes of the extractor: a backtracking matcher, the regular language it implements, and the proof that `match` picks the preferred match of that language |
| `ocr_service.dfy` | `OcrService` | field extraction, validation, and the `OcrReader` class with its `worker` field |
| `ocr_examples.dfy` | `SampleTexts`, `OcrExamples` | what the extractor returns on particular certificate texts |
| `vaccine_model.dfy` | `VaccineModel` | the stored vaccination record |
| `vaccine_controller.dfy` | `VaccineController` | the schedule and `generateRecommendations` |
| `vaccine_status.dfy` | `VaccineStatusRule` | `determineVaccineStatus` |
| `drug_service.dfy` | `DrugService` | the mock drug and interaction tables, `findMockInteractions`, the search fallback |
| `ai_service.dfy` | `AiService` | `knownInteractions`, `mockCheckDrugInteractions`, `mockCheckSymptoms` |

Time is an integer number of milliseconds since the epoch (`Millis`). "Today"
is a parameter of every operation that reads the clock.

The foreign libraries of the certificate reader are modelled as functions in
a `TextSources` value: `pdf-parse`, tesseract.js `createWorker` and
`recognize`, and the `sharp` resize. Their failures are modelled as
`Failure` results.

The lookup tables are parameters of the interaction and search functions.
The repository's own tables are constants bound in thin wrappers:
`FindMockInteractions`, `SearchFallback` and `MockCheckDrugInteractions`.

Two behaviours of the code are easy to misread:

- **Name capture.** In `[A-Za-z\s-]+` the class `\s` includes the line
  break, and the run is greedy. So for `"Vaccine: Tetanus\nDate: 05/20/2022"`
  the name is `Tetanus\nDate` (`OcrExamples.NameRunsAcrossLines`).
- **Prior record.** The controller picks the prior record with `find`, so
  the first history record whose name covers the schedule entry decides
  (`VaccineController.PriorRecord`, `VaccineController.PriorRecordIsFirst`).

## Model

| member | source | states |
|---|---|---|
| `JsText.Lower` | src/lib/services/aiService.ts:122-123 | lowering one character turns exactly the ASCII letters into lower-case letters, leaves every other character alone, and never changes whether a character is white space |
| `JsText.ToLowerCase` | src/lib/services/aiService.ts:122-123 | defines `toLowerCase()` as lowering every character in place, keeping the length |
| `JsText.ToLowerCaseIdempotent` | src/lib/services/aiService.ts:122-123 | lowering an already lowered string changes nothing |
| `JsText.TrimStart` | backend/src/services/ocrService.ts:81 | the result is a suffix of the input, everything removed is white space, and it does not start with white space |
| `JsText.TrimEnd` | backend/src/services/ocrService.ts:81 | the result is a prefix of the input, everything removed is white space, and it does not end with white space |
| `JsText.Trim` | backend/src/services/ocrService.ts:81 | `trim()` returns a piece of the input with only white space around it, and the piece neither starts nor ends with white space |
| `JsText.TrimOfUnspaced` | backend/src/services/ocrService.ts:111 | a non-empty string that neither starts nor ends with white space is its own trim |
| `JsText.Includes` | backend/src/controllers/vaccineController.ts:142 | defines `includes`: the substring occurs at some position, and the empty string occurs everywhere |
| `JsArray.Filter` | src/lib/services/drugService.ts:145-148 | `filter` keeps exactly the elements that pass the test, and the result is no longer than the input |
| `JsArray.Find` | backend/src/controllers/vaccineController.ts:142 | `find` returns nothing exactly when no element passes, and otherwise the element at the first index that passes |
| `JsArray.Map` | src/lib/services/drugService.ts:139-141 | `map` returns a sequence of the same length as its input |
| `JsArray.FilterIsSubsequence` | src/lib/services/drugService.ts:145-148 | the result of `filter` is a subsequence of its input, in input order |
| `JsArray.FilterMonotone` | src/lib/services/drugService.ts:145-148 | filtering with a weaker test keeps at least the same elements, in the same order |
| `JsArray.FilterCongruent` | src/lib/services/drugService.ts:145-148 | two tests that agree on every element give the same filter result |
| `JsArray.FilterSnoc` | backend/src/controllers/vaccineController.ts:141-167 | filtering one more element extends the result by that element exactly when it passes, as a `push` inside the loop does |
| `JsArray.FilterAll` | src/lib/services/drugService.ts:30-32 | a filter that every element passes returns its input |
| `JsArray.MapSnoc` | backend/src/controllers/vaccineController.ts:141-167 | mapping one more element appends that element's image |
| `JsArray.MapSubsequence` | backend/src/controllers/vaccineController.ts:141-167 | mapping keeps the subsequence relation |
| `JsArray.SubsequenceLength` | backend/src/controllers/vaccineController.ts:117-167 | a subsequence is no longer than the sequence it is taken from |
| `CertificatePatterns.RunEnd` | backend/src/services/ocrService.ts:54 | a greedy `[cls]+` or `\s*` run starting at `j` ends at the first character outside the class, or at the end of the text |
| `CertificatePatterns.RunEndAt` | backend/src/services/ocrService.ts:54 | a run of the class that is followed by a character outside it is exactly the greedy run |
| `CertificatePatterns.AlternativeEnd` | backend/src/services/ocrService.ts:54 | a label alternation such as vaccine, immunization or shot, under the `i` flag, ends where an alternative occurs, and fails only when no alternative occurs |
| `CertificatePatterns.AlternativeEndUnique` | backend/src/services/ocrService.ts:53-74 | when the alternatives start with distinct letters, as in the four label groups, the alternation ends where the one alternative that occurs ends |
| `CertificatePatterns.WordStartsWithLetter` | backend/src/services/ocrService.ts:53-74 | a label word cannot start on white space |
| `CertificatePatterns.QualifierEnd` | backend/src/services/ocrService.ts:72 | the qualifier group (`number`, or `no` with an optional `.`) matches exactly when `number` or `no` (in any case) starts at the position; the `.` after `no` is taken whenever it is there; the end found is a qualifier of the regular language |
| `CertificatePatterns.ColonAfterLabel` | backend/src/services/ocrService.ts:54 | defines where `labels\s*:` (with the qualifier group and `\s*` before the colon when the expression has it) finds its `:` after a match start; the position is inside the text |
| `CertificatePatterns.CaptureRun` | backend/src/services/ocrService.ts:54 | defines the capture of `\s*([cls]+)` at the end of an expression, with the greedy `\s*` giving back one white-space character when no other class character follows |
| `CertificatePatterns.DateTokenEnd` | backend/src/services/ocrService.ts:60-61 | a date token found at `p` has the shape `\d{1,2}[-/]\d{1,2}[-/]\d{2,4}` |
| `CertificatePatterns.LastSuffixSplit` | backend/src/services/ocrService.ts:55 | the greedy `([cls]+)` before `\s*(?:suffixes)` gives characters back one at a time: the result is the latest capture end that a suffix follows, and no later end has one |
| `CertificatePatterns.Leftmost` | backend/src/services/ocrService.ts:79 | the search returns a start position at which the matcher succeeds, with the match found there |
| `CertificatePatterns.LeftmostIsFirst` | backend/src/services/ocrService.ts:79 | no position before the returned start matches, and when nothing is returned no position matches |
| `CertificatePatterns.MatchAt` | backend/src/services/ocrService.ts:53-74 | defines the match a backtracking engine finds for one of the eight expressions at a fixed start position, by the shape of the expression |
| `CertificatePatterns.LabelledMatch` | backend/src/services/ocrService.ts:54 | defines the match of `labels\s*:\s*([cls]+)` (and of the batch form with its qualifier) at a position: the label part up to the colon, then the capture |
| `CertificatePatterns.LabelledDateMatch` | backend/src/services/ocrService.ts:60 | defines the match of `labels\s*:\s*(date token)` at a position: the label part up to the colon, white space, then a date token |
| `CertificatePatterns.SuffixedMatch` | backend/src/services/ocrService.ts:55 | defines the match of `([cls]+)\s*(?:suffixes)` at a position: a class run whose greedy end is given back until a suffix follows |
| `CertificatePatterns.BareDateMatch` | backend/src/services/ocrService.ts:61 | defines the match of the bare date expression at a position: a date token starting there |
| `CertificatePatterns.Exec` | backend/src/services/ocrService.ts:79 | `text.match(pattern)` returns a start position and the match the backtracking matcher finds there |
| `CertificatePatterns.Capture` | backend/src/services/ocrService.ts:79-80 | the capture group `match[1]` of a match is never empty, because every group is a `+` run or a date token |
| `CertificatePatterns.ColonSound` | backend/src/services/ocrService.ts:54 | the `:` that the matcher finds after a label is one the regular language allows |
| `CertificatePatterns.QualifierComplete` | backend/src/services/ocrService.ts:72 | any `number`/`no`/`no.` qualifier that white space and a `:` follow is the one the matcher takes |
| `CertificatePatterns.ColonComplete` | backend/src/services/ocrService.ts:53-74 | any `:` the regular language allows after a label is the one the matcher finds |
| `CertificatePatterns.CaptureRunSound` | backend/src/services/ocrService.ts:54 | `\s*([cls]+)` captures a non-empty run of the class with only white space before it |
| `CertificatePatterns.CaptureRunBest` | backend/src/services/ocrService.ts:54 | every capture that `\s*([cls]+)` allows starts no later than the matcher's capture, or starts with it and ends no later |
| `CertificatePatterns.DateTokenEndBest` | backend/src/services/ocrService.ts:60-61 | any date token that starts at `p` ends no later than the one the matcher finds, because `\d{2,4}` is greedy |
| `CertificatePatterns.DateTokenStartsWithDigit` | backend/src/services/ocrService.ts:61 | a date token starts with a digit |
| `CertificatePatterns.MatchAtSound` | backend/src/services/ocrService.ts:53-74 | every match the backtracking matcher returns at a position is a match of the regular expression |
| `CertificatePatterns.MatchAtNonEmpty` | backend/src/services/ocrService.ts:53-74 | a capture found at a position is a non-empty piece of the text |
| `CertificatePatterns.MatchAtBest` | backend/src/services/ocrService.ts:53-74 | when the expression can match at a position, the matcher finds a match there, and no other match there has a later capture start, or the same start and a later end |
| `CertificatePatterns.ExecIsLeftmostPreferred` | backend/src/services/ocrService.ts:79 | `match` finds something exactly when the regular expression matches somewhere, and what it finds starts leftmost and then has the latest capture |
| `CertificatePatterns.ExecFindsPreferred` | backend/src/services/ocrService.ts:79 | every match of the regular expression is matched or beaten by the one `match` returns |
| `CertificatePatterns.CaptureInClass` | backend/src/services/ocrService.ts:54-73 | the capture of a name, provider or batch pattern holds only characters of its class |
| `CertificatePatterns.CaptureIsDateToken` | backend/src/services/ocrService.ts:60-61 | the capture of a date pattern is a date token |
| `OcrService.PatternListsWellFormed` | backend/src/services/ocrService.ts:53-74 | in each of the four labelled expressions the label words are non-empty, start with a lower-case letter and have distinct initials; the suffix words of the three suffixed expressions are non-empty and start with a lower-case letter (`clinic` and `center` share their initial) |
| `OcrService.FirstCapture` | backend/src/services/ocrService.ts:78-84 | a field loop yields nothing exactly when no pattern captures; otherwise it yields the non-empty capture of the first pattern, in list order, that captures |
| `OcrService.ScanPatterns` | backend/src/services/ocrService.ts:78-84 | the `for` loop with `break` returns what `FirstCapture` specifies |
| `OcrService.VaccineInfo` | backend/src/services/ocrService.ts:51-122 | defines the draft `extractVaccineInfo` returns: the trimmed first capture of the name, provider and batch lists, the first date capture, or empty fields |
| `OcrService.ExtractVaccineInfo` | backend/src/services/ocrService.ts:51-122 | the four loops and the returned object give the draft `VaccineInfo` specifies: trimmed name, provider and batch number, an untrimmed date, and `undefined` for an empty date |
| `OcrService.LabelledFieldWins` | backend/src/services/ocrService.ts:78-84 | when the labelled pattern matches, its trimmed capture is the field, even when trimming leaves nothing |
| `OcrService.FirstCaptureOfTwo` | backend/src/services/ocrService.ts:78-84 | the second pattern is used only when the first captures nothing |
| `OcrService.TrimmedPieceShape` | backend/src/services/ocrService.ts:81 | trimming a run of class characters leaves class characters that still occur in the text |
| `OcrService.TrimmedCaptureShape` | backend/src/services/ocrService.ts:80-81 | a trimmed name, provider or batch capture holds only class characters, has no white space at either end, and occurs in the text |
| `OcrService.EmptyFieldShape` | backend/src/services/ocrService.ts:77 | the empty default of a field has the shape of a field |
| `OcrService.ClassFieldShape` | backend/src/services/ocrService.ts:77-84 | whichever of the two patterns supplies a field, or neither, the field has the shape of a field |
| `OcrService.NameAndProviderShape` | backend/src/services/ocrService.ts:76-104 | the extracted name and provider are empty, or a piece of the text made of letters, white space and hyphens with no white space at either end |
| `OcrService.CodeCaptureUntrimmed` | backend/src/services/ocrService.ts:111 | trimming never changes a batch capture |
| `OcrService.TrimOfCodeRun` | backend/src/services/ocrService.ts:111 | a non-empty run of letters, digits and hyphens is its own trim |
| `OcrService.BatchNumberShape` | backend/src/services/ocrService.ts:106-114 | the batch number is empty or a piece of the text made of letters, digits and hyphens, and equals the raw capture |
| `OcrService.DateTokenSlice` | backend/src/services/ocrService.ts:91 | a date token cut out of the text is a date token on its own |
| `OcrService.DateCaptureShape` | backend/src/services/ocrService.ts:88-93 | a date capture is a date token of the text |
| `OcrService.NoDateToken` | backend/src/services/ocrService.ts:61 | when the bare date pattern finds nothing, the text holds no date token anywhere |
| `OcrService.DateField` | backend/src/services/ocrService.ts:86-118 | the date is absent exactly when the text holds no date token; when present, its source is an untrimmed date token of the text |
| `OcrService.LabelledBatchNeedsQualifier` | backend/src/services/ocrService.ts:72 | when the labelled batch pattern matches, the match starts with `batch`, `lot` or `serial`, followed by white space, a `number`/`no`/`no.` qualifier, white space and the `:` |
| `OcrService.NumberedNeedsQualifier` | backend/src/services/ocrService.ts:72 | any labelled pattern with the qualifier group matches only where one of its labels starts the match and is followed by white space, a qualifier, white space and a `:` |
| `OcrService.QualifierStartsWithN` | backend/src/services/ocrService.ts:72 | a qualifier starts with the letter `n` in either case |
| `OcrService.Validate` | backend/src/services/ocrService.ts:136-145 | a draft is accepted exactly when it has a non-empty name and a date, and is then returned unchanged; an empty name gives the name error, checked before the date |
| `OcrService.OcrReader.constructor` | backend/src/services/ocrService.ts:8 | a new reader holds no worker |
| `OcrService.WorkerAfterInit` | backend/src/services/ocrService.ts:19-23 | defines the worker after `initializeWorker`: the held one, else a newly created one, else none when creation fails |
| `OcrService.ImageText` | backend/src/services/ocrService.ts:32-44 | defines what `processImage` returns or throws: the creation error, the resize error, or the recognised text of the resized image |
| `OcrService.DocumentText` | backend/src/services/ocrService.ts:128-132 | defines the text of a document: the PDF parser's for `application/pdf`, the OCR text otherwise |
| `OcrService.CertificateOutcome` | backend/src/services/ocrService.ts:124-149 | defines what `processCertificate` returns or throws: a read failure, or the validated draft of the document text |
| `OcrService.OcrReader.InitializeWorker` | backend/src/services/ocrService.ts:19-23 | a held worker is kept; otherwise one is created; creation fails only when no worker was held and `createWorker` fails |
| `OcrService.OcrReader.CleanupWorker` | backend/src/services/ocrService.ts:25-30 | afterwards no worker is held |
| `OcrService.OcrReader.ProcessImage` | backend/src/services/ocrService.ts:32-44 | the worker is initialised, then the optimised image is recognised; every failure is passed on, and the result is `ImageText` |
| `OcrService.OcrReader.ProcessCertificate` | backend/src/services/ocrService.ts:124-149 | the outcome is `CertificateOutcome` of the worker held on entry, and no worker is held afterwards, on success and on every error |
| `OcrService.PdfBypassesOcr` | backend/src/services/ocrService.ts:128-129 | the outcome for `application/pdf` depends only on the PDF parser, not on the OCR functions or the worker held |
| `OcrService.OtherTypesUseOcr` | backend/src/services/ocrService.ts:130-132 | the outcome for every other content type depends only on the OCR functions, not on the PDF parser |
| `OcrService.CertificateAccepted` | backend/src/services/ocrService.ts:134-145 | a certificate is accepted exactly when its text was read and yields a name and a date, and then the draft is returned as extracted; an empty name and a failed read give their own errors |
| `OcrService.AcceptedCertificateShape` | backend/src/services/ocrService.ts:134-145 | an accepted certificate has a non-empty name of letters, white space and hyphens found in the text, and a date whose source is a date token of the text |
| `OcrExamples.NameFromLabel` | backend/src/services/ocrService.ts:78-84 | when the labelled name pattern matches at the start, the name is the trim of its capture |
| `OcrExamples.BatchFromLabel` | backend/src/services/ocrService.ts:108-114 | when the labelled batch pattern matches at the start, the batch number is the trim of its capture |
| `OcrExamples.NameRunsAcrossLines` | backend/src/services/ocrService.ts:54 | a text starting `Vaccine: Tetanus\nDate:` yields the name `Tetanus\nDate` |
| `OcrExamples.LabelWithoutNameGivesEmptyName` | backend/src/services/ocrService.ts:79-81 | a text starting `Shot: \n4` yields the empty name, and the draft is rejected for its name |
| `OcrExamples.BatchLabelWithNumber` | backend/src/services/ocrService.ts:72 | `Batch No.: AB12` yields the batch number `AB12` |
| `OcrExamples.BatchLabelWithoutNumber` | backend/src/services/ocrService.ts:72 | `Batch: AB12` does not match the labelled batch pattern at all |
| `VaccineController.DueDate` | backend/src/controllers/vaccineController.ts:150 | the due date is a midnight, more than 29 and at most 30 days after now |
| `VaccineController.NameCovers` | backend/src/controllers/vaccineController.ts:142 | defines the `find` test: the lower-cased record name contains the lower-cased schedule name |
| `VaccineController.IsDue` | backend/src/controllers/vaccineController.ts:143-165 | defines one iteration's decision: without a prior record the age must reach `dueAge`; with one, at least `interval` years of 365 days must have passed since it |
| `VaccineController.RecommendationFor` | backend/src/controllers/vaccineController.ts:147-152 | the pushed object copies the entry's name, description and importance, and its due date is `DueDate(now)` |
| `VaccineController.Recommend` | backend/src/controllers/vaccineController.ts:141-167 | defines the loop's result: one recommendation per due schedule entry, in schedule order |
| `VaccineController.PriorRecord` | backend/src/controllers/vaccineController.ts:142 | no prior record exactly when no record name contains the entry name, ignoring case; otherwise the first record, in input order, whose name does |
| `VaccineController.PriorRecordIsFirst` | backend/src/controllers/vaccineController.ts:142 | the first covering record is the one `find` returns |
| `VaccineController.GenerateRecommendations` | backend/src/controllers/vaccineController.ts:112-170 | the loop with its `push` calls returns the due schedule entries' recommendations, in schedule order (`Recommend`) |
| `VaccineController.RecommendStep` | backend/src/controllers/vaccineController.ts:141-167 | one more schedule entry adds its recommendation exactly when the entry is due, at the end |
| `VaccineController.ScheduleNamesDistinct` | backend/src/controllers/vaccineController.ts:117-139 | the schedule has the three distinct names Tetanus, Flu Shot and Pneumonia, in that order |
| `VaccineController.ScheduleIntervalsPositive` | backend/src/controllers/vaccineController.ts:117-139 | every schedule interval is at least one year |
| `VaccineController.RecommendationsInScheduleOrder` | backend/src/controllers/vaccineController.ts:141-167 | at most three recommendations, whose names are a subsequence of Tetanus, Flu Shot, Pneumonia |
| `VaccineController.RecommendIff` | backend/src/controllers/vaccineController.ts:141-167 | in a schedule with distinct names, an entry's recommendation is emitted exactly when the entry is due |
| `VaccineController.RecommendedIffDue` | backend/src/controllers/vaccineController.ts:141-167 | an entry of the fixed schedule is recommended exactly when it is due |
| `VaccineController.RecommendationsCopyEntries` | backend/src/controllers/vaccineController.ts:147-164 | every recommendation is that of a due schedule entry, with the entry's name, description and importance and the 30-day due date |
| `VaccineController.CopiedEntries` | backend/src/controllers/vaccineController.ts:147-164 | for any schedule, every recommendation is that of a due entry of the schedule |
| `VaccineController.NeverTakenNeedsAge` | backend/src/controllers/vaccineController.ts:144-153 | with no matching record, the entry is recommended exactly when `userAge >= dueAge` |
| `VaccineController.TakenNeedsInterval` | backend/src/controllers/vaccineController.ts:155-165 | with a matching record, the first one decides: the entry is recommended exactly when at least `interval` years of 365 days have passed since it |
| `VaccineController.FutureRecordNeverDue` | backend/src/controllers/vaccineController.ts:155-158 | a matching record dated after today never makes its entry due |
| `VaccineController.DefaultAgeEmptyHistory` | backend/src/controllers/vaccineController.ts:117-153 | at age 30 with an empty history, exactly Tetanus and Flu Shot are recommended, in that order |
| `VaccineStatusRule.DetermineVaccineStatus` | src/lib/services/vaccineService.ts:69-82 | completed exactly when there is no next due date; overdue exactly when it is present and before today; pending exactly when it is present and not before today |
| `VaccineStatusRule.StatusOfParsedDate` | src/lib/services/vaccineService.ts:75-81 | a due date strictly before today is overdue; on or after today it is pending |
| `VaccineStatusRule.InvalidDueDateIsPending` | src/lib/services/vaccineService.ts:75-81 | an unparseable due date compares false with today, so the record is pending, never overdue |
| `VaccineStatusRule.StatusIgnoresVaccinationDate` | src/lib/services/vaccineService.ts:71 | the vaccination date plays no part in the status |
| `VaccineStatusRule.StatusMonotoneInToday` | src/lib/services/vaccineService.ts:77-81 | as today moves later, overdue stays overdue, pending can only become overdue, and completed stays completed |
| `DrugService.DrugNames` | src/lib/services/drugService.ts:139-142 | the mapped and filtered names are exactly the non-empty names that some id resolves to |
| `DrugService.NameOfId` | src/lib/services/drugService.ts:139-141 | defines the name an id maps to: the name of the first drug with that id, or `''` |
| `DrugService.FindInteractions` | src/lib/services/drugService.ts:137-149 | defines `findMockInteractions` over a drug table and an interaction table: the table entries whose two drugs are both among the resolved names, in table order |
| `DrugService.InteractionsSoundAndComplete` | src/lib/services/drugService.ts:137-149 | an interaction is returned exactly when it is in the table and both of its drugs resolve from the ids |
| `DrugService.InteractionsInTableOrder` | src/lib/services/drugService.ts:145-148 | the result is a subsequence of the table, in table order |
| `DrugService.InteractionsDependOnResolvedNames` | src/lib/services/drugService.ts:139-148 | two id lists that resolve to the same drugs give the same result |
| `DrugService.SameIdsResolveAlike` | src/lib/services/drugService.ts:139-142 | every drug the ids of one list resolve to, the ids of a list containing them resolve to as well |
| `DrugService.InteractionsIgnoreOrderAndRepeats` | src/lib/services/drugService.ts:139-148 | reordering or repeating ids does not change the result |
| `DrugService.UnknownIdIgnored` | src/lib/services/drugService.ts:139-142 | an id that names no drug of the table contributes nothing |
| `DrugService.InteractionsMonotone` | src/lib/services/drugService.ts:145-148 | adding ids never removes an interaction; the old result is a subsequence of the new one |
| `DrugService.Search` | src/lib/services/drugService.ts:30-32 | defines the fallback filter: the drugs whose lower-cased name contains the lower-cased query |
| `DrugService.SearchFinds` | src/lib/services/drugService.ts:30-32 | the fallback returns exactly the drugs whose lower-cased name contains the lower-cased query, in table order |
| `DrugService.EmptySearchReturnsAll` | src/lib/services/drugService.ts:30-32 | the empty query returns the whole table |
| `AiService.MockCheckSymptoms` | src/lib/services/aiService.ts:77-86 | the headache answer exactly when the lower-cased text mentions `headache`; the cough answer exactly when it mentions `cough` and not `headache`; the default answer otherwise |
| `AiService.SymptomCheckIgnoresCase` | src/lib/services/aiService.ts:79-81 | the answer does not depend on the case of the description |
| `AiService.Lookup` | src/lib/services/aiService.ts:126 | `known[a]?.[b]` is present exactly when `a` is a key and `b` a key of its entry, and is then that entry |
| `AiService.NamesInteract` | src/lib/services/aiService.ts:122-135 | defines when a pair produces a finding: the lower-cased names have an entry in either order |
| `AiService.PairsBefore` | src/lib/services/aiService.ts:120-121 | defines the index pairs the two loops visit before the outer index reaches `i`, in visiting order |
| `AiService.Collect` | src/lib/services/aiService.ts:117-140 | defines the findings pushed for a sequence of visited pairs, in order |
| `AiService.Interactions` | src/lib/services/aiService.ts:117-140 | defines the result of the nested loops: the findings of all pairs `i < j` of the list |
| `AiService.PairResult` | src/lib/services/aiService.ts:122-135 | a pair yields a finding exactly when the lower-cased names interact in either order, and the finding lists both names as given, in input order |
| `AiService.CheckDrugInteractions` | src/lib/services/aiService.ts:117-140 | the outer loop returns `Interactions`: the findings of all pairs `i < j`, in visiting order |
| `AiService.CheckRow` | src/lib/services/aiService.ts:121-136 | the inner loop extends the findings of the earlier rows by those of row `i` |
| `AiService.MockCheckDrugInteractions` | src/lib/services/aiService.ts:88-141 | the check against `knownInteractions` returns `Interactions` for that table |
| `AiService.PairsBeforeMembers` | src/lib/services/aiService.ts:120-121 | the loops visit exactly the pairs `i < j` below the bound, so no medication is paired with itself |
| `AiService.PairsBeforeOrdered` | src/lib/services/aiService.ts:120-121 | pairs are visited in strictly increasing `(i, j)` order, so each one once |
| `AiService.PairsBeforeCount` | src/lib/services/aiService.ts:120-121 | the loops visit `i (2n - i - 1) / 2` pairs in the first `i` rows, so `n (n - 1) / 2` in all |
| `AiService.CollectMembers` | src/lib/services/aiService.ts:117-140 | every finding belongs to a visited pair, and every visited pair with a finding contributes it |
| `AiService.CollectFollowsHits` | src/lib/services/aiService.ts:117-140 | the findings correspond one to one, in order, to the visited pairs that produce one |
| `AiService.SubsequenceOrdered` | src/lib/services/aiService.ts:120-121 | keeping some of the visited pairs keeps them in `(i, j)` order |
| `AiService.InteractionsSoundAndComplete` | src/lib/services/aiService.ts:117-140 | a finding is reported exactly when some pair `i < j` of the list produces it |
| `AiService.InteractionsCount` | src/lib/services/aiService.ts:117-140 | at most `n (n - 1) / 2` findings; fewer than two medications give none |
| `AiService.InteractionsInPairOrder` | src/lib/services/aiService.ts:117-140 | the `k`-th finding is that of the `k`-th producing pair, and those pairs are in increasing `(i, j)` order |
| `AiService.ForwardEntryPreferred` | src/lib/services/aiService.ts:126-130 | with an entry for the first name then the second, that entry is reported |
| `AiService.ReverseEntryUsed` | src/lib/services/aiService.ts:131-135 | without a forward entry, the reverse entry is reported, with the names still in input order |
| `AiService.NamesInteractSymmetric` | src/lib/services/aiService.ts:126-135 | whether two names interact does not depend on their order |
| `AiService.NamesInteractIgnoresCase` | src/lib/services/aiService.ts:122-123 | whether two names interact does not depend on their case |

## Left out

- The singleton `getInstance` of the OCR service and the controller, and the controller's Express handlers: process wiring and HTTP I/O.
- Multer, `fs`, Mongo queries and saves, the route table, the seed script, every axios client and every React component: I/O, persistence and presentation.
- `wearableService.mockGetHealthMetrics`: it uses `Math.random` and floating point.
- The foreign libraries `pdf-parse`, tesseract.js and `sharp` are functions of a `TextSources` value. The model knows only their results and failures.
- OcrService.OcrReader.CleanupWorker: a `terminate()` that throws is not modelled. The model always drops the worker; the code would then keep it and throw from the `finally` block.
- `OcrService.VaccineDraft` keeps the date as the string it was built from. `new Date(string)` parsing is not modelled: any `Date` object is truthy, so an unparseable date still passes the check at `ocrService.ts:141`, as in the code.
- The "OCR worker not initialized" error of `processImage` cannot occur after a successful `initializeWorker`, so it has no error value.
- Async behaviour and concurrent calls on the shared OCR instance are not modelled. Each method runs to completion.
- JsText.Lower: lowers ASCII letters only. Full Unicode `toLowerCase` differs on non-ASCII letters. No table key, label, schedule name or keyword contains one, but user-supplied names with such letters may compare differently.
- The `i` flag of the extractor's regular expressions folds ASCII letters only. This is also what JavaScript does without the `u` flag for these ASCII-only patterns.
- VaccineController.DueDate: uses UTC calendar days. The code's `new Date(y, m, d + 30)` uses the local time zone.
- VaccineController.IsDue: the float division of elapsed time by a 365-day year is an exact integer comparison, elapsed ≥ interval × 365 × 86 400 000. Float rounding is not modelled.
- `userAge` is a parameter of `GenerateRecommendations`. The controller always passes 30 (`DefaultAgeEmptyHistory` states what that gives).
- The history is a value, so `generateRecommendations` cannot modify it. Identical inputs give identical outputs because the model is a function of (history, age, today).
- VaccineStatusRule.DetermineVaccineStatus: `new Date(string)` is an abstract `parse` parameter, with `None` for an invalid date. The clock is the `today` parameter.
- `knownInteractions[x]` also finds inherited properties of JavaScript objects (such as `constructor`). The model's map holds only the table's own keys.
- AiService.MockCheckSymptoms: returns the answer as an `Advice` value. `AdviceText` holds the three answer texts word for word.
- `mockCheckDrugInteractions` keeps its nested loops, split in two methods: `CheckDrugInteractions` (outer) and `CheckRow` (inner).
- The lookup tables are parameters of `FindInteractions`, `Search` and `CheckDrugInteractions`. The repository's constants are bound in `FindMockInteractions`, `SearchFallback` and `MockCheckDrugInteractions`, so the properties hold for any table.
